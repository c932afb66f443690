/**
 * The pipeline helpers of the proof generator: the walks over a block graph that find the empty
 * blocks reachable from the entry and the first non-empty blocks after a block, the `@`-prefix rule
 * that relates each passified variable to the variable it came from, and the block lemmas of the
 * final program and of the blocks the peephole pass removed.
 */
module ProofGenerationLayer {
  import opened Wrappers
  import opened IsaAst
  import opened Foreign
  import Tables
  import Seqs
  import N = IsaUniqueNamer

  type BlockId = nat

  /** What a block carries in every graph it belongs to: the graphs of one procedure share blocks and differ only in edges. */
  datatype Blocks = Blocks(name: BlockId -> string, cmdCount: BlockId -> nat, finalStateIsMagic: BlockId -> bool)

  /**
   * A block graph: its entry, its blocks in backward order, the successors of each block, and a rank
   * that decreases along every edge (the graphs are acyclic at this stage of the pipeline).
   */
  datatype Cfg = Cfg(entry: BlockId, blocksBackwards: seq<BlockId>, succ: BlockId -> seq<BlockId>, rank: BlockId -> nat)

  ghost predicate Acyclic(cfg: Cfg)
  {
    forall b: BlockId, i :: 0 <= i < |cfg.succ(b)| ==> cfg.rank(cfg.succ(b)[i]) < cfg.rank(b)
  }

  /** A list without repetitions (a graph lists each of its blocks once). */
  ghost predicate Distinct<T>(xs: seq<T>)
  {
    forall i, j :: 0 <= i < j < |xs| ==> xs[i] != xs[j]
  }

  /* ------------------------------------------------------------------ walk measure */

  /** The number of paths that start at `b`: a walk that expands every block dequeues at most this many entries for `b`. */
  function Weight(cfg: Cfg, b: BlockId): (w: nat)
    requires Acyclic(cfg)
    ensures w >= 1
    decreases cfg.rank(b), 1
  {
    1 + SuccWeight(cfg, b, 0)
  }

  /** The weights of the successors of `b` from position `n` on. */
  function SuccWeight(cfg: Cfg, b: BlockId, n: nat): nat
    requires Acyclic(cfg) && n <= |cfg.succ(b)|
    decreases cfg.rank(b), 0, |cfg.succ(b)| - n
  {
    if n == |cfg.succ(b)| then 0 else Weight(cfg, cfg.succ(b)[n]) + SuccWeight(cfg, b, n + 1)
  }

  function QueueWeight(cfg: Cfg, q: seq<BlockId>): nat
    requires Acyclic(cfg)
    decreases |q|
  {
    if |q| == 0 then 0 else Weight(cfg, q[0]) + QueueWeight(cfg, q[1..])
  }

  lemma {:induction false} QueueWeightConcat(cfg: Cfg, a: seq<BlockId>, b: seq<BlockId>)
    requires Acyclic(cfg)
    ensures QueueWeight(cfg, a + b) == QueueWeight(cfg, a) + QueueWeight(cfg, b)
    decreases |a|
  {
    if |a| > 0 {
      assert (a + b)[0] == a[0];
      assert (a + b)[1..] == a[1..] + b;
      QueueWeightConcat(cfg, a[1..], b);
    } else {
      assert a + b == b;
    }
  }

  lemma {:induction false} SuccQueueWeight(cfg: Cfg, b: BlockId, n: nat)
    requires Acyclic(cfg) && n <= |cfg.succ(b)|
    ensures QueueWeight(cfg, cfg.succ(b)[n..]) == SuccWeight(cfg, b, n)
    decreases |cfg.succ(b)| - n
  {
    if n < |cfg.succ(b)| {
      assert cfg.succ(b)[n..][1..] == cfg.succ(b)[n + 1..];
      SuccQueueWeight(cfg, b, n + 1);
    }
  }

  /** Replacing the head of the queue by its successors lowers the weight of the queue by one. */
  lemma ExpandLowersWeight(cfg: Cfg, q: seq<BlockId>)
    requires Acyclic(cfg) && |q| > 0
    ensures QueueWeight(cfg, q[1..] + cfg.succ(q[0])) == QueueWeight(cfg, q) - 1
  {
    QueueWeightConcat(cfg, q[1..], cfg.succ(q[0]));
    SuccQueueWeight(cfg, q[0], 0);
    assert cfg.succ(q[0])[0..] == cfg.succ(q[0]);
  }

  /* ------------------------------------------------------------------ first non-empty blocks */

  /** The first non-empty blocks after `b`: `b` itself when it has commands, else those of its successors. */
  function Frontier(blocks: Blocks, cfg: Cfg, b: BlockId): (r: set<BlockId>)
    requires Acyclic(cfg)
    ensures forall x :: x in r ==> blocks.cmdCount(x) != 0
    decreases cfg.rank(b), 1
  {
    if blocks.cmdCount(b) != 0 then {b} else SuccFrontier(blocks, cfg, b, 0)
  }

  function SuccFrontier(blocks: Blocks, cfg: Cfg, b: BlockId, n: nat): (r: set<BlockId>)
    requires Acyclic(cfg) && n <= |cfg.succ(b)|
    ensures forall x :: x in r ==> blocks.cmdCount(x) != 0
    decreases cfg.rank(b), 0, |cfg.succ(b)| - n
  {
    if n == |cfg.succ(b)| then {} else Frontier(blocks, cfg, cfg.succ(b)[n]) + SuccFrontier(blocks, cfg, b, n + 1)
  }

  function QueueFrontier(blocks: Blocks, cfg: Cfg, q: seq<BlockId>): set<BlockId>
    requires Acyclic(cfg)
    decreases |q|
  {
    if |q| == 0 then {} else Frontier(blocks, cfg, q[0]) + QueueFrontier(blocks, cfg, q[1..])
  }

  lemma {:induction false} QueueFrontierConcat(blocks: Blocks, cfg: Cfg, a: seq<BlockId>, b: seq<BlockId>)
    requires Acyclic(cfg)
    ensures QueueFrontier(blocks, cfg, a + b) == QueueFrontier(blocks, cfg, a) + QueueFrontier(blocks, cfg, b)
    decreases |a|
  {
    if |a| > 0 {
      assert (a + b)[0] == a[0];
      assert (a + b)[1..] == a[1..] + b;
      QueueFrontierConcat(blocks, cfg, a[1..], b);
    } else {
      assert a + b == b;
    }
  }

  lemma {:induction false} SuccQueueFrontier(blocks: Blocks, cfg: Cfg, b: BlockId, n: nat)
    requires Acyclic(cfg) && n <= |cfg.succ(b)|
    ensures QueueFrontier(blocks, cfg, cfg.succ(b)[n..]) == SuccFrontier(blocks, cfg, b, n)
    decreases |cfg.succ(b)| - n
  {
    if n < |cfg.succ(b)| {
      assert cfg.succ(b)[n..][1..] == cfg.succ(b)[n + 1..];
      SuccQueueFrontier(blocks, cfg, b, n + 1);
    }
  }

  /** The walk of `GetNonEmptySuccessors`: dequeue a block, keep it if it has commands, else enqueue its successors. */
  function FirstNonEmpty(blocks: Blocks, cfg: Cfg, queue: seq<BlockId>): seq<BlockId>
    requires Acyclic(cfg)
    decreases QueueWeight(cfg, queue)
  {
    if |queue| == 0 then []
    else if blocks.cmdCount(queue[0]) != 0 then [queue[0]] + FirstNonEmpty(blocks, cfg, queue[1..])
    else ExpandLowersWeight(cfg, queue); FirstNonEmpty(blocks, cfg, queue[1..] + cfg.succ(queue[0]))
  }

  /** The walk finds exactly the first non-empty blocks after the queued ones. */
  lemma {:induction false} FirstNonEmptyIsFrontier(blocks: Blocks, cfg: Cfg, queue: seq<BlockId>)
    requires Acyclic(cfg)
    ensures forall x :: x in FirstNonEmpty(blocks, cfg, queue) <==> x in QueueFrontier(blocks, cfg, queue)
    decreases QueueWeight(cfg, queue)
  {
    if |queue| > 0 {
      var b := queue[0];
      if blocks.cmdCount(b) != 0 {
        FirstNonEmptyIsFrontier(blocks, cfg, queue[1..]);
      } else {
        ExpandLowersWeight(cfg, queue);
        FirstNonEmptyIsFrontier(blocks, cfg, queue[1..] + cfg.succ(b));
        QueueFrontierConcat(blocks, cfg, queue[1..], cfg.succ(b));
        SuccQueueFrontier(blocks, cfg, b, 0);
        assert cfg.succ(b)[0..] == cfg.succ(b);
      }
    }
  }

  /** The result of `GetNonEmptySuccessors`. */
  function NonEmptySuccessors(blocks: Blocks, cfg: Cfg, b: BlockId): seq<BlockId>
    requires Acyclic(cfg)
  {
    if |cfg.succ(b)| > 0 then FirstNonEmpty(blocks, cfg, [b]) else []
  }

  /**
   * A block without successors gets no successors even when it has commands; otherwise the result
   * lists exactly the first non-empty blocks from `b` on, and is `[b]` when `b` has commands.
   */
  lemma NonEmptySuccessorsSpec(blocks: Blocks, cfg: Cfg, b: BlockId)
    requires Acyclic(cfg)
    ensures |cfg.succ(b)| == 0 ==> NonEmptySuccessors(blocks, cfg, b) == []
    ensures |cfg.succ(b)| > 0 && blocks.cmdCount(b) != 0 ==> NonEmptySuccessors(blocks, cfg, b) == [b]
    ensures |cfg.succ(b)| > 0 ==> forall x :: x in NonEmptySuccessors(blocks, cfg, b) <==> x in Frontier(blocks, cfg, b)
    ensures forall x :: x in NonEmptySuccessors(blocks, cfg, b) ==> blocks.cmdCount(x) != 0
  {
    assert [b][1..] == [];
    assert FirstNonEmpty(blocks, cfg, []) == [];
    assert QueueFrontier(blocks, cfg, [b]) == Frontier(blocks, cfg, b);
    FirstNonEmptyIsFrontier(blocks, cfg, [b]);
  }

  /** An empty block is looked through: the first non-empty blocks after each successor are among its own. */
  lemma {:induction false} FrontierLooksThrough(blocks: Blocks, cfg: Cfg, b: BlockId, i: nat)
    requires Acyclic(cfg) && i < |cfg.succ(b)| && blocks.cmdCount(b) == 0
    ensures Frontier(blocks, cfg, cfg.succ(b)[i]) <= Frontier(blocks, cfg, b)
  {
    SuccFrontierHas(blocks, cfg, b, 0, i);
  }

  lemma {:induction false} SuccFrontierHas(blocks: Blocks, cfg: Cfg, b: BlockId, n: nat, i: nat)
    requires Acyclic(cfg) && n <= i < |cfg.succ(b)|
    ensures Frontier(blocks, cfg, cfg.succ(b)[i]) <= SuccFrontier(blocks, cfg, b, n)
    decreases i - n
  {
    if n < i {
      SuccFrontierHas(blocks, cfg, b, n + 1, i);
    }
  }

  /** `GetNonEmptySuccessors`: a queue-driven walk from `b` that stops at blocks with commands. */
  method GetNonEmptySuccessors(blocks: Blocks, cfg: Cfg, b: BlockId) returns (nonEmptySuccessors: seq<BlockId>)
    requires Acyclic(cfg)
    ensures nonEmptySuccessors == NonEmptySuccessors(blocks, cfg, b)
  {
    nonEmptySuccessors := [];
    if |cfg.succ(b)| > 0 {
      var toVisit := [b];
      while |toVisit| > 0
        invariant nonEmptySuccessors + FirstNonEmpty(blocks, cfg, toVisit) == FirstNonEmpty(blocks, cfg, [b])
        decreases QueueWeight(cfg, toVisit)
      {
        var curBlock := toVisit[0];
        ghost var before := toVisit;
        toVisit := toVisit[1..];
        if blocks.cmdCount(curBlock) != 0 {
          nonEmptySuccessors := nonEmptySuccessors + [curBlock];
        } else {
          var k := 0;
          while k < |cfg.succ(curBlock)|
            invariant 0 <= k <= |cfg.succ(curBlock)|
            invariant toVisit == before[1..] + cfg.succ(curBlock)[..k]
          {
            toVisit := toVisit + [cfg.succ(curBlock)[k]];
            k := k + 1;
          }
          assert cfg.succ(curBlock)[..k] == cfg.succ(curBlock);
          ExpandLowersWeight(cfg, before);
        }
      }
    }
  }

  /* ------------------------------------------------------------------ reachable empty blocks */

  /** The empty blocks reachable from `b` without passing through a block whose final state is magic. */
  function ReachableEmpty(blocks: Blocks, cfg: Cfg, b: BlockId): (r: set<BlockId>)
    requires Acyclic(cfg)
    ensures forall x :: x in r ==> blocks.cmdCount(x) == 0 && !blocks.finalStateIsMagic(x)
    decreases cfg.rank(b), 1
  {
    if blocks.finalStateIsMagic(b) then {}
    else (if blocks.cmdCount(b) == 0 then {b} else {}) + SuccReachableEmpty(blocks, cfg, b, 0)
  }

  function SuccReachableEmpty(blocks: Blocks, cfg: Cfg, b: BlockId, n: nat): (r: set<BlockId>)
    requires Acyclic(cfg) && n <= |cfg.succ(b)|
    ensures forall x :: x in r ==> blocks.cmdCount(x) == 0 && !blocks.finalStateIsMagic(x)
    decreases cfg.rank(b), 0, |cfg.succ(b)| - n
  {
    if n == |cfg.succ(b)| then {} else ReachableEmpty(blocks, cfg, cfg.succ(b)[n]) + SuccReachableEmpty(blocks, cfg, b, n + 1)
  }

  function QueueReachableEmpty(blocks: Blocks, cfg: Cfg, q: seq<BlockId>): set<BlockId>
    requires Acyclic(cfg)
    decreases |q|
  {
    if |q| == 0 then {} else ReachableEmpty(blocks, cfg, q[0]) + QueueReachableEmpty(blocks, cfg, q[1..])
  }

  lemma {:induction false} QueueReachableConcat(blocks: Blocks, cfg: Cfg, a: seq<BlockId>, b: seq<BlockId>)
    requires Acyclic(cfg)
    ensures QueueReachableEmpty(blocks, cfg, a + b) == QueueReachableEmpty(blocks, cfg, a) + QueueReachableEmpty(blocks, cfg, b)
    decreases |a|
  {
    if |a| > 0 {
      assert (a + b)[0] == a[0];
      assert (a + b)[1..] == a[1..] + b;
      QueueReachableConcat(blocks, cfg, a[1..], b);
    } else {
      assert a + b == b;
    }
  }

  lemma {:induction false} SuccQueueReachable(blocks: Blocks, cfg: Cfg, b: BlockId, n: nat)
    requires Acyclic(cfg) && n <= |cfg.succ(b)|
    ensures QueueReachableEmpty(blocks, cfg, cfg.succ(b)[n..]) == SuccReachableEmpty(blocks, cfg, b, n)
    decreases |cfg.succ(b)| - n
  {
    if n < |cfg.succ(b)| {
      assert cfg.succ(b)[n..][1..] == cfg.succ(b)[n + 1..];
      SuccQueueReachable(blocks, cfg, b, n + 1);
    }
  }

  /** Every empty, non-magic successor of an expanded block is reported, and so is everything it reaches. */
  lemma {:induction false} ReachableEmptyClosed(blocks: Blocks, cfg: Cfg, b: BlockId, i: nat)
    requires Acyclic(cfg) && i < |cfg.succ(b)| && !blocks.finalStateIsMagic(b)
    ensures ReachableEmpty(blocks, cfg, cfg.succ(b)[i]) <= ReachableEmpty(blocks, cfg, b)
  {
    SuccReachableHas(blocks, cfg, b, 0, i);
  }

  lemma {:induction false} SuccReachableHas(blocks: Blocks, cfg: Cfg, b: BlockId, n: nat, i: nat)
    requires Acyclic(cfg) && n <= i < |cfg.succ(b)|
    ensures ReachableEmpty(blocks, cfg, cfg.succ(b)[i]) <= SuccReachableEmpty(blocks, cfg, b, n)
    decreases i - n
  {
    if n < i {
      SuccReachableHas(blocks, cfg, b, n + 1, i);
    }
  }

  /** `ComputeReachableEmptyBlocks`: a queue-driven walk from the entry that neither reports nor expands magic blocks. */
  method ComputeReachableEmptyBlocks(blocks: Blocks, beforePeephole: Cfg) returns (result: set<BlockId>)
    requires Acyclic(beforePeephole)
    ensures result == ReachableEmpty(blocks, beforePeephole, beforePeephole.entry)
    ensures forall x :: x in result ==> blocks.cmdCount(x) == 0 && !blocks.finalStateIsMagic(x)
  {
    var cfg := beforePeephole;
    result := {};
    var queue := [cfg.entry];
    assert QueueReachableEmpty(blocks, cfg, queue) == ReachableEmpty(blocks, cfg, cfg.entry) by {
      assert queue[1..] == [];
    }
    while |queue| > 0
      invariant result + QueueReachableEmpty(blocks, cfg, queue) == ReachableEmpty(blocks, cfg, cfg.entry)
      decreases QueueWeight(cfg, queue)
    {
      var curBlock := queue[0];
      ghost var before := queue;
      queue := queue[1..];
      if !blocks.finalStateIsMagic(curBlock) {
        if blocks.cmdCount(curBlock) == 0 {
          result := result + {curBlock};
        }
        var k := 0;
        while k < |cfg.succ(curBlock)|
          invariant 0 <= k <= |cfg.succ(curBlock)|
          invariant queue == before[1..] + cfg.succ(curBlock)[..k]
        {
          queue := queue + [cfg.succ(curBlock)[k]];
          k := k + 1;
        }
        assert cfg.succ(curBlock)[..k] == cfg.succ(curBlock);
        ExpandLowersWeight(cfg, before);
        QueueReachableConcat(blocks, cfg, before[1..], cfg.succ(curBlock));
        SuccQueueReachable(blocks, cfg, curBlock, 0);
        assert cfg.succ(curBlock)[0..] == cfg.succ(curBlock);
      }
    }
  }

  /* ------------------------------------------------------------------ block lemma names */

  /** `GetLemmaName`: the lemma of a block is named after its label. */
  function GetLemmaName(blocks: Blocks, b: BlockId): (r: string)
    ensures |r| == 6 + |blocks.name(b)| && r[..6] == "block_" && r[6..] == blocks.name(b)
  {
    "block_" + blocks.name(b)
  }

  /** Blocks with different labels get different preferred lemma names. */
  lemma LemmaNamesDistinct(blocks: Blocks, a: BlockId, b: BlockId)
    requires blocks.name(a) != blocks.name(b)
    ensures GetLemmaName(blocks, a) != GetLemmaName(blocks, b)
  {
    assert GetLemmaName(blocks, a)[6..] != GetLemmaName(blocks, b)[6..];
  }

  /** The request the lemma namer receives for block `b`. */
  function LemmaRequest(blocks: Blocks, spacer: string, b: BlockId): N.NamerRequest<BlockId>
  {
    N.GlobalName(b, N.ValidIsaString(N.ReservedRewrite(GetLemmaName(blocks, b)), spacer))
  }

  function LemmaRequestOf(blocks: Blocks, spacer: string): BlockId -> N.NamerRequest<BlockId>
  {
    (b: BlockId) => LemmaRequest(blocks, spacer, b)
  }

  /** The name the namer gives the `j`-th block of `bs`, after the requests `start` and those of the blocks before it. */
  function ResolvedLemmaName(namer: N.IsaUniqueNamer<BlockId>, blocks: Blocks, start: seq<N.NamerRequest<BlockId>>, bs: seq<BlockId>, j: nat): string
    requires j < |bs|
  {
    var reqs := Seqs.Map(bs, LemmaRequestOf(blocks, namer.spacer));
    namer.resolve(namer.spacer, start + reqs[..j], reqs[j])
  }

  /** After the requests of the first `n` blocks of `bs`, asking for the next block's lemma name gives `ResolvedLemmaName`. */
  lemma NextLemmaName(namer: N.IsaUniqueNamer<BlockId>, blocks: Blocks, start: seq<N.NamerRequest<BlockId>>, bs: seq<BlockId>, n: nat)
    requires n < |bs|
    ensures var f := LemmaRequestOf(blocks, namer.spacer);
      namer.resolve(namer.spacer, start + Seqs.Map(bs[..n], f), LemmaRequest(blocks, namer.spacer, bs[n])) ==
        ResolvedLemmaName(namer, blocks, start, bs, n) &&
      Seqs.Map(bs[..n + 1], f) == Seqs.Map(bs[..n], f) + [LemmaRequest(blocks, namer.spacer, bs[n])]
  {
    var f := LemmaRequestOf(blocks, namer.spacer);
    Seqs.MapTake(bs, n, f);
    Seqs.MapPrefix(bs, n, f);
  }

  /* ------------------------------------------------------------------ lemmas of the final program */

  function HintsName(blocks: Blocks, b: BlockId): string
  {
    blocks.name(b) + "_hints"
  }

  /**
   * The declarations of one block of the final program: the ML value holding its VC hints when there
   * are any, then its lemma, whose name comes from the lemma namer.
   */
  function VcLemmaDecls(env: Env, blocks: Blocks, cfg: Cfg, hints: BlockId -> Option<seq<string>>,
                        blockLemma: (BlockId, seq<BlockId>, string, Option<string>) -> LemmaDecl, b: BlockId, name: string): (r: seq<OuterDecl>)
    ensures |r| == (if hints(b).Some? then 2 else 1)
    ensures r[0].MLDecl? <==> hints(b).Some?
    ensures r[|r| - 1] == Lemma(blockLemma(b, cfg.succ(b), name, if hints(b).Some? then Some(HintsName(blocks, b)) else None))
  {
    match hints(b)
    case None => [Lemma(blockLemma(b, cfg.succ(b), name, None))]
    case Some(hs) =>
      [MLDecl(env.text(DefineVal, [HintsName(blocks, b), env.text(MLList, hs)])),
       Lemma(blockLemma(b, cfg.succ(b), name, Some(HintsName(blocks, b))))]
  }

  /** The declarations `GenerateVCLemmas` makes for the `j`-th block of `bs`, after the namer requests `start`. */
  function VcLemmaEntry(env: Env, blocks: Blocks, cfg: Cfg, hints: BlockId -> Option<seq<string>>,
                        blockLemma: (BlockId, seq<BlockId>, string, Option<string>) -> LemmaDecl,
                        namer: N.IsaUniqueNamer<BlockId>, start: seq<N.NamerRequest<BlockId>>, bs: seq<BlockId>, j: nat): seq<OuterDecl>
    requires j < |bs|
  {
    VcLemmaDecls(env, blocks, cfg, hints, blockLemma, bs[j], ResolvedLemmaName(namer, blocks, start, bs, j))
  }

  /** The declarations of the `i`-th block of `bs`, built as `GenerateVCLemmas` builds them. */
  method BlockVcDecls(env: Env, blocks: Blocks, cfg: Cfg, hints: BlockId -> Option<seq<string>>,
                      blockLemma: (BlockId, seq<BlockId>, string, Option<string>) -> LemmaDecl,
                      lemmaNamer: N.IsaUniqueNamer<BlockId>, ghost start: seq<N.NamerRequest<BlockId>>, bs: seq<BlockId>, i: nat)
    returns (result: seq<OuterDecl>)
    requires i < |bs| && lemmaNamer.requests == start + Seqs.Map(bs[..i], LemmaRequestOf(blocks, lemmaNamer.spacer))
    modifies lemmaNamer
    ensures lemmaNamer.requests == start + Seqs.Map(bs[..i + 1], LemmaRequestOf(blocks, lemmaNamer.spacer))
    ensures result == VcLemmaEntry(env, blocks, cfg, hints, blockLemma, lemmaNamer, start, bs, i)
  {
    var b := bs[i];
    NextLemmaName(lemmaNamer, blocks, start, bs, i);
    var vcHintsName: Option<string> := None;
    result := [];
    match hints(b) {
      case Some(hs) =>
        vcHintsName := Some(HintsName(blocks, b));
        result := result + [MLDecl(env.text(DefineVal, [HintsName(blocks, b), env.text(MLList, hs)]))];
      case None =>
    }
    var name := lemmaNamer.GetName(b, GetLemmaName(blocks, b));
    result := result + [Lemma(blockLemma(b, cfg.succ(b), name, vcHintsName))];
  }

  /** A block of a graph is not among the keys of a table extended by the blocks listed before it. */
  lemma NextKeyFresh<V>(t: Tables.Table<BlockId, V>, bs: seq<BlockId>, i: nat, p: (nat, V) -> bool)
    requires i < |bs| && Distinct(bs) && Tables.ExtendedBy(Tables.Empty(), t, bs, i, p)
    ensures bs[i] !in t.entries
  {
    assert bs[i] !in bs[..i];
    Tables.KeySetMembers(t.keys, bs[i]);
  }

  /** The entry `GenerateVCLemmas` stores for the j-th block of the final program. */
  ghost function VcEntryCheck(env: Env, blocks: Blocks, cfg: Cfg, hints: BlockId -> Option<seq<string>>,
                              blockLemma: (BlockId, seq<BlockId>, string, Option<string>) -> LemmaDecl,
                              namer: N.IsaUniqueNamer<BlockId>, start: seq<N.NamerRequest<BlockId>>): (nat, seq<OuterDecl>) -> bool
  {
    (j: nat, v: seq<OuterDecl>) =>
      j < |cfg.blocksBackwards| && v == VcLemmaEntry(env, blocks, cfg, hints, blockLemma, namer, start, cfg.blocksBackwards, j)
  }

  /** `GenerateVCLemmas`: the declarations of every block of the final program, keyed by block, in backward order. */
  method GenerateVCLemmas(env: Env, blocks: Blocks, cfg: Cfg, hints: BlockId -> Option<seq<string>>,
                          blockLemma: (BlockId, seq<BlockId>, string, Option<string>) -> LemmaDecl,
                          lemmaNamer: N.IsaUniqueNamer<BlockId>)
    returns (blockToLemmaDecls: Tables.Table<BlockId, seq<OuterDecl>>)
    requires Distinct(cfg.blocksBackwards)
    modifies lemmaNamer
    ensures lemmaNamer.requests == old(lemmaNamer.requests) + Seqs.Map(cfg.blocksBackwards, LemmaRequestOf(blocks, lemmaNamer.spacer))
    ensures Tables.Valid(blockToLemmaDecls) && blockToLemmaDecls.keys == cfg.blocksBackwards
    ensures forall j :: 0 <= j < |cfg.blocksBackwards| ==>
      cfg.blocksBackwards[j] in blockToLemmaDecls.entries &&
      blockToLemmaDecls.entries[cfg.blocksBackwards[j]] ==
        VcLemmaEntry(env, blocks, cfg, hints, blockLemma, lemmaNamer, old(lemmaNamer.requests), cfg.blocksBackwards, j)
  {
    var bs := cfg.blocksBackwards;
    ghost var start := lemmaNamer.requests;
    ghost var f := LemmaRequestOf(blocks, lemmaNamer.spacer);
    ghost var p := VcEntryCheck(env, blocks, cfg, hints, blockLemma, lemmaNamer, start);
    blockToLemmaDecls := Tables.Empty();
    Tables.ExtendedByNothing(Tables.Empty(), bs, p);
    var i := 0;
    while i < |bs|
      invariant 0 <= i <= |bs|
      invariant lemmaNamer.requests == start + Seqs.Map(bs[..i], f)
      invariant Tables.ExtendedBy(Tables.Empty(), blockToLemmaDecls, bs, i, p)
    {
      blockToLemmaDecls := AddVcLemmaEntry(env, blocks, cfg, hints, blockLemma, lemmaNamer, start, blockToLemmaDecls, i, p);
      i := i + 1;
    }
    assert bs[..i] == bs;
    VcEntriesDone(env, blocks, cfg, hints, blockLemma, lemmaNamer, start, blockToLemmaDecls);
  }

  /** A table extended by the entries of all blocks holds exactly those blocks, each with its entry. */
  lemma VcEntriesDone(env: Env, blocks: Blocks, cfg: Cfg, hints: BlockId -> Option<seq<string>>,
                      blockLemma: (BlockId, seq<BlockId>, string, Option<string>) -> LemmaDecl,
                      namer: N.IsaUniqueNamer<BlockId>, start: seq<N.NamerRequest<BlockId>>, t: Tables.Table<BlockId, seq<OuterDecl>>)
    requires Tables.ExtendedBy(Tables.Empty(), t, cfg.blocksBackwards, |cfg.blocksBackwards|, VcEntryCheck(env, blocks, cfg, hints, blockLemma, namer, start))
    ensures Tables.Valid(t) && t.keys == cfg.blocksBackwards
    ensures forall j :: 0 <= j < |cfg.blocksBackwards| ==>
      cfg.blocksBackwards[j] in t.entries &&
      t.entries[cfg.blocksBackwards[j]] == VcLemmaEntry(env, blocks, cfg, hints, blockLemma, namer, start, cfg.blocksBackwards, j)
  {
    Tables.ExtendedByAll(Tables.Empty(), t, cfg.blocksBackwards, VcEntryCheck(env, blocks, cfg, hints, blockLemma, namer, start));
  }

  /** One iteration of `GenerateVCLemmas`: the i-th block's declarations, added under the block. */
  method AddVcLemmaEntry(env: Env, blocks: Blocks, cfg: Cfg, hints: BlockId -> Option<seq<string>>,
                         blockLemma: (BlockId, seq<BlockId>, string, Option<string>) -> LemmaDecl,
                         lemmaNamer: N.IsaUniqueNamer<BlockId>, ghost start: seq<N.NamerRequest<BlockId>>,
                         table: Tables.Table<BlockId, seq<OuterDecl>>, i: nat, ghost p: (nat, seq<OuterDecl>) -> bool)
    returns (t: Tables.Table<BlockId, seq<OuterDecl>>)
    requires i < |cfg.blocksBackwards| && Distinct(cfg.blocksBackwards)
    requires lemmaNamer.requests == start + Seqs.Map(cfg.blocksBackwards[..i], LemmaRequestOf(blocks, lemmaNamer.spacer))
    requires Tables.ExtendedBy(Tables.Empty(), table, cfg.blocksBackwards, i, p)
    requires p == VcEntryCheck(env, blocks, cfg, hints, blockLemma, lemmaNamer, start)
    modifies lemmaNamer
    ensures lemmaNamer.requests == start + Seqs.Map(cfg.blocksBackwards[..i + 1], LemmaRequestOf(blocks, lemmaNamer.spacer))
    ensures Tables.ExtendedBy(Tables.Empty(), t, cfg.blocksBackwards, i + 1, p)
  {
    var bs := cfg.blocksBackwards;
    var result := BlockVcDecls(env, blocks, cfg, hints, blockLemma, lemmaNamer, start, bs, i);
    NextKeyFresh(table, bs, i, p);
    Tables.ExtendedByStep(Tables.Empty(), table, bs, i, p, result);
    t := Tables.Add(table, bs[i], result).value;
  }

  /* ------------------------------------------------------------------ lemmas of removed empty blocks */

  /** A block gets an adjusted lemma when the peephole pass removed it and it has no commands. */
  predicate NeedsAdjustedLemma(blocks: Blocks, afterPeephole: Cfg, b: BlockId)
  {
    b !in afterPeephole.blocksBackwards && blocks.cmdCount(b) == 0
  }

  /** The blocks of `bs` that get an adjusted lemma, in order. */
  function AdjustedBlocks(blocks: Blocks, afterPeephole: Cfg, bs: seq<BlockId>): (r: seq<BlockId>)
    ensures forall x :: x in r <==> x in bs && NeedsAdjustedLemma(blocks, afterPeephole, x)
    decreases |bs|
  {
    if |bs| == 0 then []
    else
      var init := bs[..|bs| - 1];
      var last := bs[|bs| - 1];
      assert bs == init + [last];
      AdjustedBlocks(blocks, afterPeephole, init) + (if NeedsAdjustedLemma(blocks, afterPeephole, last) then [last] else [])
  }

  /** The adjusted blocks of a prefix of `bs` are a prefix of those of `bs`. */
  lemma {:induction false} AdjustedBlocksPrefix(blocks: Blocks, afterPeephole: Cfg, bs: seq<BlockId>, i: nat)
    requires i <= |bs|
    ensures var pre := AdjustedBlocks(blocks, afterPeephole, bs[..i]);
      |pre| <= |AdjustedBlocks(blocks, afterPeephole, bs)| && AdjustedBlocks(blocks, afterPeephole, bs)[..|pre|] == pre
    decreases |bs|
  {
    if i < |bs| {
      var init := bs[..|bs| - 1];
      assert init[..i] == bs[..i];
      AdjustedBlocksPrefix(blocks, afterPeephole, init, i);
    } else {
      assert bs[..i] == bs;
    }
  }

  /** One more block of `bs`: it is the next adjusted block exactly when it needs an adjusted lemma. */
  lemma AdjustedBlocksStep(blocks: Blocks, afterPeephole: Cfg, bs: seq<BlockId>, i: nat)
    requires i < |bs|
    ensures var pre := AdjustedBlocks(blocks, afterPeephole, bs[..i]);
      var all := AdjustedBlocks(blocks, afterPeephole, bs);
      |pre| <= |all| && all[..|pre|] == pre &&
      (!NeedsAdjustedLemma(blocks, afterPeephole, bs[i]) ==> AdjustedBlocks(blocks, afterPeephole, bs[..i + 1]) == pre) &&
      (NeedsAdjustedLemma(blocks, afterPeephole, bs[i]) ==>
        |pre| < |all| && all[|pre|] == bs[i] && all[..|pre| + 1] == AdjustedBlocks(blocks, afterPeephole, bs[..i + 1]))
  {
    var pre := AdjustedBlocks(blocks, afterPeephole, bs[..i]);
    var all := AdjustedBlocks(blocks, afterPeephole, bs);
    assert bs[..i + 1][..i] == bs[..i];
    AdjustedBlocksPrefix(blocks, afterPeephole, bs, i);
    AdjustedBlocksPrefix(blocks, afterPeephole, bs, i + 1);
    if NeedsAdjustedLemma(blocks, afterPeephole, bs[i]) {
      assert all[..|pre| + 1][|pre|] == bs[i];
    }
  }

  /** The adjusted blocks of a graph that lists each block once are listed once. */
  lemma {:induction false} AdjustedBlocksDistinct(blocks: Blocks, afterPeephole: Cfg, bs: seq<BlockId>)
    requires Distinct(bs)
    ensures Distinct(AdjustedBlocks(blocks, afterPeephole, bs))
    decreases |bs|
  {
    if |bs| > 0 {
      var init := bs[..|bs| - 1];
      AdjustedBlocksDistinct(blocks, afterPeephole, init);
      assert bs[|bs| - 1] !in init;
    }
  }

  /** The lemma `GetAdjustedLemmas` makes for the `j`-th adjusted block, after the namer requests `start`. */
  function AdjustedLemmaEntry(blocks: Blocks, beforePeephole: Cfg, emptyBlockLemma: (BlockId, seq<BlockId>, string) -> LemmaDecl,
                              namer: N.IsaUniqueNamer<BlockId>, start: seq<N.NamerRequest<BlockId>>, adjusted: seq<BlockId>, j: nat): LemmaDecl
    requires Acyclic(beforePeephole) && j < |adjusted|
  {
    emptyBlockLemma(adjusted[j], NonEmptySuccessors(blocks, beforePeephole, adjusted[j]), ResolvedLemmaName(namer, blocks, start, adjusted, j))
  }

  /** The lemma of the `n`-th adjusted block, built as `GetAdjustedLemmas` builds it. */
  method AdjustedLemma(blocks: Blocks, beforePeephole: Cfg, emptyBlockLemma: (BlockId, seq<BlockId>, string) -> LemmaDecl,
                       lemmaNamer: N.IsaUniqueNamer<BlockId>, ghost start: seq<N.NamerRequest<BlockId>>, ghost adjusted: seq<BlockId>, ghost n: nat,
                       block: BlockId)
    returns (blockLemma: LemmaDecl)
    requires Acyclic(beforePeephole) && n < |adjusted| && adjusted[n] == block
    requires lemmaNamer.requests == start + Seqs.Map(adjusted[..n], LemmaRequestOf(blocks, lemmaNamer.spacer))
    modifies lemmaNamer
    ensures lemmaNamer.requests == start + Seqs.Map(adjusted[..n + 1], LemmaRequestOf(blocks, lemmaNamer.spacer))
    ensures blockLemma == AdjustedLemmaEntry(blocks, beforePeephole, emptyBlockLemma, lemmaNamer, start, adjusted, n)
  {
    NextLemmaName(lemmaNamer, blocks, start, adjusted, n);
    var nonEmptySuccessors := GetNonEmptySuccessors(blocks, beforePeephole, block);
    var name := lemmaNamer.GetName(block, GetLemmaName(blocks, block));
    blockLemma := emptyBlockLemma(block, nonEmptySuccessors, name);
  }

  /** The property of the lemma of the `j`-th adjusted block, for `Tables.ExtendedBy`. */
  function AdjustedLemmaIs(blocks: Blocks, beforePeephole: Cfg, emptyBlockLemma: (BlockId, seq<BlockId>, string) -> LemmaDecl,
                           namer: N.IsaUniqueNamer<BlockId>, start: seq<N.NamerRequest<BlockId>>, adjusted: seq<BlockId>): (nat, LemmaDecl) -> bool
    requires Acyclic(beforePeephole)
  {
    (j: nat, v: LemmaDecl) => j < |adjusted| && v == AdjustedLemmaEntry(blocks, beforePeephole, emptyBlockLemma, namer, start, adjusted, j)
  }

  /**
   * What `GetAdjustedLemmas` has built after the first `i` blocks of the graph before the peephole
   * pass: the lemmas of the adjusted blocks among them, named in order after the requests `start`.
   */
  ghost predicate AdjustedSoFar(blocks: Blocks, beforePeephole: Cfg, afterPeephole: Cfg, emptyBlockLemma: (BlockId, seq<BlockId>, string) -> LemmaDecl,
                                namer: N.IsaUniqueNamer<BlockId>, start: seq<N.NamerRequest<BlockId>>, requests: seq<N.NamerRequest<BlockId>>,
                                t: Tables.Table<BlockId, LemmaDecl>, i: nat)
  {
    var bs := beforePeephole.blocksBackwards;
    var adjusted := AdjustedBlocks(blocks, afterPeephole, bs);
    Acyclic(beforePeephole) && i <= |bs| &&
    var n := |AdjustedBlocks(blocks, afterPeephole, bs[..i])|;
    n <= |adjusted| && adjusted[..n] == AdjustedBlocks(blocks, afterPeephole, bs[..i]) &&
    requests == start + Seqs.Map(adjusted[..n], LemmaRequestOf(blocks, namer.spacer)) &&
    Tables.ExtendedBy(Tables.Empty(), t, adjusted, n, AdjustedLemmaIs(blocks, beforePeephole, emptyBlockLemma, namer, start, adjusted))
  }

  /** One iteration of `GetAdjustedLemmas`: the `i`-th block gets a lemma when the peephole pass removed it and it is empty. */
  method AdjustedLemmaStep(blocks: Blocks, beforePeephole: Cfg, afterPeephole: Cfg, emptyBlockLemma: (BlockId, seq<BlockId>, string) -> LemmaDecl,
                           lemmaNamer: N.IsaUniqueNamer<BlockId>, ghost start: seq<N.NamerRequest<BlockId>>,
                           blocksToLemmas: Tables.Table<BlockId, LemmaDecl>, i: nat)
    returns (next: Tables.Table<BlockId, LemmaDecl>)
    requires Distinct(beforePeephole.blocksBackwards) && i < |beforePeephole.blocksBackwards|
    requires AdjustedSoFar(blocks, beforePeephole, afterPeephole, emptyBlockLemma, lemmaNamer, start, lemmaNamer.requests, blocksToLemmas, i)
    modifies lemmaNamer
    ensures AdjustedSoFar(blocks, beforePeephole, afterPeephole, emptyBlockLemma, lemmaNamer, start, lemmaNamer.requests, next, i + 1)
  {
    var block := beforePeephole.blocksBackwards[i];
    next := blocksToLemmas;
    if block !in afterPeephole.blocksBackwards {
      if blocks.cmdCount(block) == 0 {
        next := AddAdjustedLemmaAt(blocks, beforePeephole, afterPeephole, emptyBlockLemma, lemmaNamer, start, blocksToLemmas, i);
        return;
      }
    }
    AdjustedSoFarSkip(blocks, beforePeephole, afterPeephole, emptyBlockLemma, lemmaNamer, start, lemmaNamer.requests, blocksToLemmas, i);
  }

  /** A block that needs no adjusted lemma leaves the lemmas built so far as they are. */
  lemma AdjustedSoFarSkip(blocks: Blocks, beforePeephole: Cfg, afterPeephole: Cfg, emptyBlockLemma: (BlockId, seq<BlockId>, string) -> LemmaDecl,
                          namer: N.IsaUniqueNamer<BlockId>, start: seq<N.NamerRequest<BlockId>>, requests: seq<N.NamerRequest<BlockId>>,
                          t: Tables.Table<BlockId, LemmaDecl>, i: nat)
    requires i < |beforePeephole.blocksBackwards| && !NeedsAdjustedLemma(blocks, afterPeephole, beforePeephole.blocksBackwards[i])
    requires AdjustedSoFar(blocks, beforePeephole, afterPeephole, emptyBlockLemma, namer, start, requests, t, i)
    ensures AdjustedSoFar(blocks, beforePeephole, afterPeephole, emptyBlockLemma, namer, start, requests, t, i + 1)
  {
    var bs := beforePeephole.blocksBackwards;
    AdjustedBlocksStep(blocks, afterPeephole, bs, i);
    assert AdjustedBlocks(blocks, afterPeephole, bs[..i + 1]) == AdjustedBlocks(blocks, afterPeephole, bs[..i]);
  }

  /** The `i`-th block of the graph, a removed empty block, gets its lemma after those built so far. */
  method AddAdjustedLemmaAt(blocks: Blocks, beforePeephole: Cfg, afterPeephole: Cfg, emptyBlockLemma: (BlockId, seq<BlockId>, string) -> LemmaDecl,
                            lemmaNamer: N.IsaUniqueNamer<BlockId>, ghost start: seq<N.NamerRequest<BlockId>>,
                            blocksToLemmas: Tables.Table<BlockId, LemmaDecl>, i: nat)
    returns (next: Tables.Table<BlockId, LemmaDecl>)
    requires Distinct(beforePeephole.blocksBackwards) && i < |beforePeephole.blocksBackwards|
    requires NeedsAdjustedLemma(blocks, afterPeephole, beforePeephole.blocksBackwards[i])
    requires AdjustedSoFar(blocks, beforePeephole, afterPeephole, emptyBlockLemma, lemmaNamer, start, lemmaNamer.requests, blocksToLemmas, i)
    modifies lemmaNamer
    ensures AdjustedSoFar(blocks, beforePeephole, afterPeephole, emptyBlockLemma, lemmaNamer, start, lemmaNamer.requests, next, i + 1)
  {
    ghost var adjusted := AdjustedBlocks(blocks, afterPeephole, beforePeephole.blocksBackwards);
    ghost var n := |AdjustedBlocks(blocks, afterPeephole, beforePeephole.blocksBackwards[..i])|;
    AdjustedSoFarOpen(blocks, beforePeephole, afterPeephole, emptyBlockLemma, lemmaNamer, start, lemmaNamer.requests, blocksToLemmas, i);
    next := AddAdjustedLemma(blocks, beforePeephole, emptyBlockLemma, lemmaNamer, start, adjusted, n, blocksToLemmas, beforePeephole.blocksBackwards[i]);
    AdjustedSoFarNext(blocks, beforePeephole, afterPeephole, emptyBlockLemma, lemmaNamer, start, lemmaNamer.requests, next, i, n + 1);
  }

  /** The lemma of a removed empty block, the `n`-th adjusted one, added after those built so far. */
  method AddAdjustedLemma(blocks: Blocks, beforePeephole: Cfg, emptyBlockLemma: (BlockId, seq<BlockId>, string) -> LemmaDecl,
                          lemmaNamer: N.IsaUniqueNamer<BlockId>, ghost start: seq<N.NamerRequest<BlockId>>, ghost adjusted: seq<BlockId>, ghost n: nat,
                          blocksToLemmas: Tables.Table<BlockId, LemmaDecl>, block: BlockId)
    returns (next: Tables.Table<BlockId, LemmaDecl>)
    requires Acyclic(beforePeephole) && n < |adjusted| && adjusted[n] == block && block !in blocksToLemmas.entries
    requires lemmaNamer.requests == start + Seqs.Map(adjusted[..n], LemmaRequestOf(blocks, lemmaNamer.spacer))
    requires Tables.ExtendedBy(Tables.Empty(), blocksToLemmas, adjusted, n, AdjustedLemmaIs(blocks, beforePeephole, emptyBlockLemma, lemmaNamer, start, adjusted))
    modifies lemmaNamer
    ensures lemmaNamer.requests == start + Seqs.Map(adjusted[..n + 1], LemmaRequestOf(blocks, lemmaNamer.spacer))
    ensures Tables.ExtendedBy(Tables.Empty(), next, adjusted, n + 1, AdjustedLemmaIs(blocks, beforePeephole, emptyBlockLemma, lemmaNamer, start, adjusted))
  {
    ghost var p := AdjustedLemmaIs(blocks, beforePeephole, emptyBlockLemma, lemmaNamer, start, adjusted);
    var blockLemma := AdjustedLemma(blocks, beforePeephole, emptyBlockLemma, lemmaNamer, start, adjusted, n, block);
    Tables.ExtendedByStep(Tables.Empty(), blocksToLemmas, adjusted, n, p, blockLemma);
    next := Tables.Add(blocksToLemmas, block, blockLemma).value;
  }

  /** Before a block that needs an adjusted lemma: it is the next adjusted block, and not yet a key. */
  lemma AdjustedSoFarOpen(blocks: Blocks, beforePeephole: Cfg, afterPeephole: Cfg, emptyBlockLemma: (BlockId, seq<BlockId>, string) -> LemmaDecl,
                          namer: N.IsaUniqueNamer<BlockId>, start: seq<N.NamerRequest<BlockId>>, requests: seq<N.NamerRequest<BlockId>>,
                          t: Tables.Table<BlockId, LemmaDecl>, i: nat)
    requires Distinct(beforePeephole.blocksBackwards) && i < |beforePeephole.blocksBackwards|
    requires NeedsAdjustedLemma(blocks, afterPeephole, beforePeephole.blocksBackwards[i])
    requires AdjustedSoFar(blocks, beforePeephole, afterPeephole, emptyBlockLemma, namer, start, requests, t, i)
    ensures var bs := beforePeephole.blocksBackwards;
      var adjusted := AdjustedBlocks(blocks, afterPeephole, bs);
      var n := |AdjustedBlocks(blocks, afterPeephole, bs[..i])|;
      Acyclic(beforePeephole) && n < |adjusted| && adjusted[n] == bs[i] &&
      adjusted[..n + 1] == AdjustedBlocks(blocks, afterPeephole, bs[..i + 1]) &&
      requests == start + Seqs.Map(adjusted[..n], LemmaRequestOf(blocks, namer.spacer)) &&
      Tables.ExtendedBy(Tables.Empty(), t, adjusted, n, AdjustedLemmaIs(blocks, beforePeephole, emptyBlockLemma, namer, start, adjusted)) &&
      bs[i] !in t.entries
  {
    var bs := beforePeephole.blocksBackwards;
    var adjusted := AdjustedBlocks(blocks, afterPeephole, bs);
    var n := |AdjustedBlocks(blocks, afterPeephole, bs[..i])|;
    AdjustedBlocksStep(blocks, afterPeephole, bs, i);
    AdjustedBlocksDistinct(blocks, afterPeephole, bs);
    NextKeyFresh(t, adjusted, n, AdjustedLemmaIs(blocks, beforePeephole, emptyBlockLemma, namer, start, adjusted));
  }

  /** The parts of `AdjustedSoFar` after the first `i + 1` blocks, of which `n` are adjusted. */
  lemma AdjustedSoFarNext(blocks: Blocks, beforePeephole: Cfg, afterPeephole: Cfg, emptyBlockLemma: (BlockId, seq<BlockId>, string) -> LemmaDecl,
                          namer: N.IsaUniqueNamer<BlockId>, start: seq<N.NamerRequest<BlockId>>, requests: seq<N.NamerRequest<BlockId>>,
                          t: Tables.Table<BlockId, LemmaDecl>, i: nat, n: nat)
    requires Acyclic(beforePeephole) && i < |beforePeephole.blocksBackwards|
    requires var adjusted := AdjustedBlocks(blocks, afterPeephole, beforePeephole.blocksBackwards);
      n <= |adjusted| && adjusted[..n] == AdjustedBlocks(blocks, afterPeephole, beforePeephole.blocksBackwards[..i + 1]) &&
      requests == start + Seqs.Map(adjusted[..n], LemmaRequestOf(blocks, namer.spacer)) &&
      Tables.ExtendedBy(Tables.Empty(), t, adjusted, n, AdjustedLemmaIs(blocks, beforePeephole, emptyBlockLemma, namer, start, adjusted))
    ensures AdjustedSoFar(blocks, beforePeephole, afterPeephole, emptyBlockLemma, namer, start, requests, t, i + 1)
  {
  }

  /** `GetAdjustedLemmas`: an empty-block lemma, naming the first non-empty successors, for every removed empty block. */
  method GetAdjustedLemmas(blocks: Blocks, beforePeephole: Cfg, afterPeephole: Cfg,
                           emptyBlockLemma: (BlockId, seq<BlockId>, string) -> LemmaDecl,
                           lemmaNamer: N.IsaUniqueNamer<BlockId>)
    returns (blocksToLemmas: Tables.Table<BlockId, LemmaDecl>)
    requires Acyclic(beforePeephole) && Distinct(beforePeephole.blocksBackwards)
    modifies lemmaNamer
    ensures var adjusted := AdjustedBlocks(blocks, afterPeephole, beforePeephole.blocksBackwards);
      lemmaNamer.requests == old(lemmaNamer.requests) + Seqs.Map(adjusted, LemmaRequestOf(blocks, lemmaNamer.spacer)) &&
      Tables.Valid(blocksToLemmas) && blocksToLemmas.keys == adjusted &&
      forall j :: 0 <= j < |adjusted| ==>
        adjusted[j] in blocksToLemmas.entries &&
        blocksToLemmas.entries[adjusted[j]] == AdjustedLemmaEntry(blocks, beforePeephole, emptyBlockLemma, lemmaNamer, old(lemmaNamer.requests), adjusted, j)
  {
    var bs := beforePeephole.blocksBackwards;
    ghost var start := lemmaNamer.requests;
    blocksToLemmas := Tables.Empty();
    AdjustedSoFarInit(blocks, beforePeephole, afterPeephole, emptyBlockLemma, lemmaNamer, start);
    var i := 0;
    while i < |bs|
      invariant 0 <= i <= |bs|
      invariant AdjustedSoFar(blocks, beforePeephole, afterPeephole, emptyBlockLemma, lemmaNamer, start, lemmaNamer.requests, blocksToLemmas, i)
    {
      blocksToLemmas := AdjustedLemmaStep(blocks, beforePeephole, afterPeephole, emptyBlockLemma, lemmaNamer, start, blocksToLemmas, i);
      i := i + 1;
    }
    AdjustedSoFarDone(blocks, beforePeephole, afterPeephole, emptyBlockLemma, lemmaNamer, start, lemmaNamer.requests, blocksToLemmas);
  }

  lemma AdjustedSoFarInit(blocks: Blocks, beforePeephole: Cfg, afterPeephole: Cfg, emptyBlockLemma: (BlockId, seq<BlockId>, string) -> LemmaDecl,
                          namer: N.IsaUniqueNamer<BlockId>, start: seq<N.NamerRequest<BlockId>>)
    requires Acyclic(beforePeephole)
    ensures AdjustedSoFar(blocks, beforePeephole, afterPeephole, emptyBlockLemma, namer, start, start, Tables.Empty(), 0)
  {
    var adjusted := AdjustedBlocks(blocks, afterPeephole, beforePeephole.blocksBackwards);
    assert beforePeephole.blocksBackwards[..0] == [] && adjusted[..0] == [];
    Tables.ExtendedByNothing(Tables.Empty(), adjusted, AdjustedLemmaIs(blocks, beforePeephole, emptyBlockLemma, namer, start, adjusted));
  }

  lemma AdjustedSoFarDone(blocks: Blocks, beforePeephole: Cfg, afterPeephole: Cfg, emptyBlockLemma: (BlockId, seq<BlockId>, string) -> LemmaDecl,
                          namer: N.IsaUniqueNamer<BlockId>, start: seq<N.NamerRequest<BlockId>>, requests: seq<N.NamerRequest<BlockId>>,
                          t: Tables.Table<BlockId, LemmaDecl>)
    requires AdjustedSoFar(blocks, beforePeephole, afterPeephole, emptyBlockLemma, namer, start, requests, t, |beforePeephole.blocksBackwards|)
    ensures var adjusted := AdjustedBlocks(blocks, afterPeephole, beforePeephole.blocksBackwards);
      requests == start + Seqs.Map(adjusted, LemmaRequestOf(blocks, namer.spacer)) &&
      Tables.Valid(t) && t.keys == adjusted &&
      forall j :: 0 <= j < |adjusted| ==>
        adjusted[j] in t.entries && t.entries[adjusted[j]] == AdjustedLemmaEntry(blocks, beforePeephole, emptyBlockLemma, namer, start, adjusted, j)
  {
    var bs := beforePeephole.blocksBackwards;
    var adjusted := AdjustedBlocks(blocks, afterPeephole, bs);
    assert bs[..|bs|] == bs;
    assert adjusted[..|adjusted|] == adjusted;
    var p := AdjustedLemmaIs(blocks, beforePeephole, emptyBlockLemma, namer, start, adjusted);
    forall j | 0 <= j < |adjusted|
      ensures adjusted[j] in t.entries && t.entries[adjusted[j]] == AdjustedLemmaEntry(blocks, beforePeephole, emptyBlockLemma, namer, start, adjusted, j)
    {
      assert p(j, t.entries[adjusted[j]]);
    }
  }

  /** Exactly the removed empty blocks of the graph before the peephole pass get an adjusted lemma. */
  lemma AdjustedLemmaBlocks(blocks: Blocks, beforePeephole: Cfg, afterPeephole: Cfg, b: BlockId)
    ensures b in AdjustedBlocks(blocks, afterPeephole, beforePeephole.blocksBackwards) <==>
      b in beforePeephole.blocksBackwards && b !in afterPeephole.blocksBackwards && blocks.cmdCount(b) == 0
  {
  }

  /* ------------------------------------------------------------------ passive variables */

  /** A variable of the program, identified by `id` (variables with the same name are still different variables). */
  datatype Variable = Variable(id: nat, name: string)

  /** The name a passified variable was derived from: its text before the first `@`, or all of it. */
  function OrigName(name: string): (r: string)
    ensures |r| <= |name| && r == name[..|r|] && '@' !in r
    ensures |r| < |name| ==> name[|r|] == '@'
    decreases |name|
  {
    if |name| == 0 || name[0] == '@' then "" else [name[0]] + OrigName(name[1..])
  }

  /** Passification names the copies of `x` as `x@<n>`: the rule finds `x` again, and leaves `x` itself alone. */
  lemma {:induction false} OrigNameOfIncarnation(base: string, suffix: string)
    requires '@' !in base
    ensures OrigName(base + "@" + suffix) == base
    ensures OrigName(base) == base
    decreases |base|
  {
    if |base| > 0 {
      assert (base + "@" + suffix)[1..] == base[1..] + "@" + suffix;
      OrigNameOfIncarnation(base[1..], suffix);
    } else {
      assert (base + "@" + suffix)[0] == '@';
    }
  }

  const MappingFailure: string := "Cannot predict mapping between passive and original variable"

  /** The table from names to the variables before passification; a repeated name is a duplicate key. */
  function NameToVar(vars: seq<Variable>): Result<Tables.Table<string, Variable>>
    decreases |vars|
  {
    if |vars| == 0 then Ok(Tables.Empty())
    else
      var pre := NameToVar(vars[..|vars| - 1]);
      var v := vars[|vars| - 1];
      if pre.Err? then pre else Tables.Add(pre.value, v.name, v)
  }

  function NameOf(v: Variable): string
  {
    v.name
  }

  /** A successful name table lists the names in order and maps each name to its variable. */
  lemma {:induction false} NameToVarOk(vars: seq<Variable>)
    ensures NameToVar(vars).Ok? ==> (
      var t := NameToVar(vars).value;
      Tables.Valid(t) && t.keys == Seqs.Map(vars, NameOf) &&
      forall i :: 0 <= i < |vars| ==> vars[i].name in t.entries && t.entries[vars[i].name] == vars[i])
    decreases |vars|
  {
    if |vars| > 0 && NameToVar(vars).Ok? {
      var init := vars[..|vars| - 1];
      var v := vars[|vars| - 1];
      NameToVarOk(init);
      var tp := NameToVar(init).value;
      Tables.AddKeepsEntries(tp, v.name, v);
      forall i | 0 <= i < |vars|
        ensures vars[i].name in NameToVar(vars).value.entries && NameToVar(vars).value.entries[vars[i].name] == vars[i]
      {
        if i < |init| {
          assert vars[i] == init[i];
        }
      }
    }
  }

  /** The name table fails, with a duplicate key, exactly when two variables share a name. */
  lemma {:induction false} NameToVarFails(vars: seq<Variable>)
    ensures NameToVar(vars).Ok? <==> Distinct(Seqs.Map(vars, NameOf))
    ensures NameToVar(vars).Err? ==> NameToVar(vars).fault == DuplicateKey
    decreases |vars|
  {
    if |vars| > 0 {
      var init := vars[..|vars| - 1];
      var v := vars[|vars| - 1];
      NameToVarFails(init);
      NameToVarOk(init);
      assert Seqs.Map(vars, NameOf) == Seqs.Map(init, NameOf) + [v.name];
      DistinctSnoc(Seqs.Map(init, NameOf), v.name);
      if NameToVar(init).Ok? {
        Tables.ValidListed(NameToVar(init).value);
      }
    }
  }

  /** The name table maps exactly the names of the variables. */
  lemma NameToVarKeys(vars: seq<Variable>, k: string)
    requires NameToVar(vars).Ok?
    ensures k in NameToVar(vars).value.entries <==> exists i :: 0 <= i < |vars| && vars[i].name == k
  {
    var t := NameToVar(vars).value;
    NameToVarOk(vars);
    if k in t.entries {
      Tables.ValidListed(t);
      assert k in Seqs.Map(vars, NameOf);
      var i :| 0 <= i < |vars| && Seqs.Map(vars, NameOf)[i] == k;
      assert vars[i].name == k;
    }
  }

  /** The map after a call: the map it started from, and whether the call completed. */
  datatype Mapped = Mapped(table: Tables.Table<Variable, Variable>, outcome: Outcome)

  /** Each passive variable in turn is mapped to the variable its name was derived from; the first failure stops the call. */
  function MapPassive(t: Tables.Table<Variable, Variable>, names: Tables.Table<string, Variable>, passive: seq<Variable>): Mapped
    decreases |passive|
  {
    if |passive| == 0 then Mapped(t, Pass)
    else MapStep(MapPassive(t, names, passive[..|passive| - 1]), names, passive[|passive| - 1])
  }

  /** One passive variable: its original is looked up by name and added to the map; a failed call stays failed. */
  function MapStep(pre: Mapped, names: Tables.Table<string, Variable>, v: Variable): (r: Mapped)
    ensures pre.outcome.Fail? ==> r == pre
    ensures pre.outcome.Pass? ==> (r.outcome.Pass? <==> OrigName(v.name) in names.entries && v !in pre.table.entries)
    ensures pre.outcome.Pass? && OrigName(v.name) !in names.entries ==> r == Mapped(pre.table, Fail(UnexpectedState(MappingFailure)))
    ensures r.outcome.Pass? ==>
      r.table == Tables.Table(pre.table.keys + [v], pre.table.entries[v := names.entries[OrigName(v.name)]])
  {
    if pre.outcome.Fail? then pre
    else match Tables.Get(names, OrigName(v.name))
      case Err(_) => Mapped(pre.table, Fail(UnexpectedState(MappingFailure)))
      case Ok(vOrig) =>
        match Tables.Add(pre.table, v, vOrig)
        case Err(f) => Mapped(pre.table, Fail(f))
        case Ok(t2) => Mapped(t2, Pass)
  }

  /**
   * A completed mapping keeps the earlier entries and maps each passive variable, added after them in
   * order, to the variable named by its text before the first `@`.
   */
  lemma {:induction false} MapPassiveOk(t: Tables.Table<Variable, Variable>, names: Tables.Table<string, Variable>, passive: seq<Variable>)
    requires Tables.Valid(t)
    ensures MapPassive(t, names, passive).outcome.Pass? ==> (
      var r := MapPassive(t, names, passive).table;
      Tables.Valid(r) && r.keys == t.keys + passive &&
      (forall k :: k in t.entries ==> k in r.entries && r.entries[k] == t.entries[k]) &&
      forall i :: 0 <= i < |passive| ==>
        OrigName(passive[i].name) in names.entries && passive[i] in r.entries &&
        r.entries[passive[i]] == names.entries[OrigName(passive[i].name)])
    decreases |passive|
  {
    if |passive| > 0 && MapPassive(t, names, passive).outcome.Pass? {
      var init := passive[..|passive| - 1];
      var v := passive[|passive| - 1];
      assert passive == init + [v];
      MapPassiveOk(t, names, init);
      var tp := MapPassive(t, names, init).table;
      var vOrig := names.entries[OrigName(v.name)];
      Tables.AddKeepsEntries(tp, v, vOrig);
      assert (t.keys + init) + [v] == t.keys + (init + [v]);
      forall i | 0 <= i < |passive|
        ensures OrigName(passive[i].name) in names.entries && passive[i] in MapPassive(t, names, passive).table.entries &&
          MapPassive(t, names, passive).table.entries[passive[i]] == names.entries[OrigName(passive[i].name)]
      {
        if i < |init| {
          assert passive[i] == init[i];
        }
      }
    }
  }

  /** Every passive name leads to a variable, and no passive variable is mapped yet. */
  ghost predicate Mappable(t: Tables.Table<Variable, Variable>, names: Tables.Table<string, Variable>, passive: seq<Variable>)
  {
    forall i :: 0 <= i < |passive| ==> OrigName(passive[i].name) in names.entries && passive[i] !in t.entries
  }

  lemma MappableSnoc(t: Tables.Table<Variable, Variable>, names: Tables.Table<string, Variable>, init: seq<Variable>, v: Variable)
    ensures Mappable(t, names, init + [v]) <==> Mappable(t, names, init) && OrigName(v.name) in names.entries && v !in t.entries
  {
    if Mappable(t, names, init + [v]) {
      forall i | 0 <= i < |init|
        ensures OrigName(init[i].name) in names.entries && init[i] !in t.entries
      {
        assert (init + [v])[i] == init[i];
      }
      assert (init + [v])[|init|] == v;
    }
  }

  lemma DistinctSnoc<T>(init: seq<T>, v: T)
    ensures Distinct(init + [v]) <==> Distinct(init) && v !in init
  {
    var xs := init + [v];
    if Distinct(xs) {
      forall i, j | 0 <= i < j < |init|
        ensures init[i] != init[j]
      {
        assert xs[i] == init[i] && xs[j] == init[j];
      }
      forall i | 0 <= i < |init|
        ensures init[i] != v
      {
        assert xs[i] == init[i] && xs[|init|] == v;
      }
    }
    if Distinct(init) && v !in init {
      forall i, j | 0 <= i < j < |xs|
        ensures xs[i] != xs[j]
      {
        assert xs[i] == init[i];
        if j < |init| {
          assert xs[j] == init[j];
        }
      }
    }
  }

  /**
   * Mapping completes exactly when every passive name leads to a variable, no passive variable was
   * mapped by an earlier call, and none is listed twice.
   */
  lemma {:induction false} MapPassivePasses(t: Tables.Table<Variable, Variable>, names: Tables.Table<string, Variable>, passive: seq<Variable>)
    requires Tables.Valid(t)
    ensures MapPassive(t, names, passive).outcome.Pass? <==> Mappable(t, names, passive) && Distinct(passive)
    decreases |passive|
  {
    if |passive| > 0 {
      var init := passive[..|passive| - 1];
      var v := passive[|passive| - 1];
      assert passive == init + [v];
      MapPassivePasses(t, names, init);
      MapPassiveOk(t, names, init);
      MappableSnoc(t, names, init, v);
      DistinctSnoc(init, v);
      var pre := MapPassive(t, names, init);
      if pre.outcome.Pass? {
        Tables.ValidListed(pre.table);
        Tables.ValidListed(t);
        assert v in pre.table.entries <==> v in t.entries || v in init;
      }
    }
  }

  /** The map after `AfterPassification`, from the variables before and after passification (in-params, locals, out-params). */
  function AfterPassificationResult(t: Tables.Table<Variable, Variable>, before: seq<Variable>, after: seq<Variable>): Mapped
  {
    match NameToVar(before)
    case Err(f) => Mapped(t, Fail(f))
    case Ok(names) => MapPassive(t, names, after)
  }

  /** A failing step of the name table stops it for good. */
  lemma {:induction false} NameToVarFailsAt(vars: seq<Variable>, i: nat)
    requires i < |vars| && NameToVar(vars[..i]).Ok? && Tables.Add(NameToVar(vars[..i]).value, vars[i].name, vars[i]).Err?
    ensures NameToVar(vars) == Err(DuplicateKey)
    decreases |vars|
  {
    if i < |vars| - 1 {
      var init := vars[..|vars| - 1];
      assert init[..i] == vars[..i];
      NameToVarFailsAt(init, i);
    } else {
      assert vars[..|vars| - 1] == vars[..i];
    }
  }

  /** A failing step of the mapping stops it for good, leaving the map as it was before that step. */
  lemma {:induction false} MapPassiveFailsAt(t: Tables.Table<Variable, Variable>, names: Tables.Table<string, Variable>, passive: seq<Variable>, i: nat, m: Mapped)
    requires i < |passive| && MapPassive(t, names, passive[..i]).outcome.Pass? && m.outcome.Fail?
    requires MapPassive(t, names, passive[..i + 1]) == m
    ensures MapPassive(t, names, passive) == m
    decreases |passive|
  {
    if i < |passive| - 1 {
      var init := passive[..|passive| - 1];
      assert init[..i] == passive[..i] && init[..i + 1] == passive[..i + 1];
      MapPassiveFailsAt(t, names, init, i, m);
    } else {
      assert passive[..i + 1] == passive;
    }
  }

  /** The passive-to-original variable map that the pipeline keeps across procedures. */
  class PassiveVariableMap {
    var passiveToOrigVar: Tables.Table<Variable, Variable>

    constructor ()
      ensures passiveToOrigVar == Tables.Empty()
    {
      passiveToOrigVar := Tables.Empty();
    }

    /**
     * `AfterPassification`: indexes the variables before passification by name, then maps each
     * variable after passification to the one named by its text before the first `@`.
     */
    method AfterPassification(before: seq<Variable>, after: seq<Variable>) returns (o: Outcome)
      modifies this
      ensures passiveToOrigVar == AfterPassificationResult(old(passiveToOrigVar), before, after).table
      ensures o == AfterPassificationResult(old(passiveToOrigVar), before, after).outcome
    {
      ghost var t0 := passiveToOrigVar;
      var nameToVar: Tables.Table<string, Variable> := Tables.Empty();
      var i := 0;
      while i < |before|
        invariant 0 <= i <= |before|
        invariant NameToVar(before[..i]) == Ok(nameToVar)
      {
        assert before[..i + 1][..i] == before[..i];
        var added := Tables.Add(nameToVar, before[i].name, before[i]);
        if added.Err? {
          NameToVarFailsAt(before, i);
          return Fail(added.fault);
        }
        nameToVar := added.value;
        i := i + 1;
      }
      assert before[..i] == before;
      var j := 0;
      while j < |after|
        invariant 0 <= j <= |after|
        invariant MapPassive(t0, nameToVar, after[..j]) == Mapped(passiveToOrigVar, Pass)
      {
        var vPassive := after[j];
        assert after[..j + 1][..j] == after[..j];
        var found := Tables.Get(nameToVar, OrigName(vPassive.name));
        if found.Ok? {
          var added := Tables.Add(passiveToOrigVar, vPassive, found.value);
          if added.Err? {
            MapPassiveFailsAt(t0, nameToVar, after, j, Mapped(passiveToOrigVar, Fail(added.fault)));
            return Fail(added.fault);
          }
          passiveToOrigVar := added.value;
        } else {
          MapPassiveFailsAt(t0, nameToVar, after, j, Mapped(passiveToOrigVar, Fail(UnexpectedState(MappingFailure))));
          return Fail(UnexpectedState(MappingFailure));
        }
        j := j + 1;
      }
      assert after[..j] == after;
      o := Pass;
    }
  }
}

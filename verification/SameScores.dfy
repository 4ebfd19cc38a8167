/** Pruning does not show: a pruned and an exhaustive run over the same lists, with queues of
    the same size and floor, end with the same scores.
 */
module SameScores {
  import opened Postings
  import opened TopK
  import opened Cursors
  import opened Traversal
  import opened PivotSearch
  import RankedOr
  import Wand
  import BlockMaxWand
  import MaxScore
  import BlockMaxMaxScore
  import RankedAnd
  import BlockMaxRankedAnd

  datatype Pruned = PrunedWand | PrunedBlockMaxWand | PrunedMaxScore | PrunedBlockMaxMaxScore

  /** Two queues of the same size that have been offered the same. */
  ghost predicate Alike(a: TopkQueue, b: TopkQueue, offered: multiset<Entry>)
    reads a, b
  {
    && a.Valid() && b.Valid() && a.k == b.k && a.floor == b.floor
    && a.Exact(offered) && b.Exact(offered)
  }

  ghost predicate SameResult(a: TopkQueue, b: TopkQueue)
    reads a, b
  {
    && |a.q| == |b.q| && multiset(Scores(a.q)) == multiset(Scores(b.q))
  }

  lemma AlikeAgree(a: TopkQueue, b: TopkQueue, offered: multiset<Entry>)
    requires Alike(a, b, offered)
    ensures SameResult(a, b)
  {
    ExactAnswersAgree(a.q, b.q, a.k, a.floor, offered);
  }

  /** A pruned disjunctive query beside the exhaustive one. */
  method Disjunctive(
    algorithm: Pruned, cursors: seq<Cursor>, pruned: TopkQueue, others: seq<Cursor>, exhaustive: TopkQueue,
    maxDocid: nat, ghost offered: multiset<Entry>)
    requires pruned != exhaustive && Group(cursors) !! Group(others) && Lists(cursors) == Lists(others)
    requires AtStart(cursors, pruned, offered, 0, maxDocid) && BlockMaxWand.BlocksBehind(cursors, 0)
    requires Distinct(others) && AllPassed(others, 0, 0, maxDocid)
    requires Alike(pruned, exhaustive, offered)
    modifies pruned, exhaustive, Group(cursors)`pos, Group(cursors)`blockPos, Group(others)`pos
    ensures SameResult(pruned, exhaustive)
  {
    hide AllOk, BlockMaxWand.BlocksBehind, Total;
    match algorithm {
      case PrunedWand => Wand.Query(cursors, pruned, maxDocid, offered);
      case PrunedBlockMaxWand => BlockMaxWand.Query(cursors, pruned, maxDocid, offered);
      case PrunedMaxScore => MaxScore.Query(cursors, pruned, maxDocid, offered);
      case PrunedBlockMaxMaxScore => BlockMaxMaxScore.Query(cursors, pruned, maxDocid, offered);
    }
    RankedOr.Query(others, exhaustive, maxDocid, offered);
    AlikeAgree(pruned, exhaustive, offered + EntriesOf(Lists(cursors), Docs(0, maxDocid)));
  }

  /** Block-Max Ranked-AND beside the exhaustive conjunctive query. */
  method Conjunctive(
    cursors: seq<Cursor>, pruned: TopkQueue, others: seq<Cursor>, exhaustive: TopkQueue, maxDocid: nat,
    ghost offered: multiset<Entry>)
    requires pruned != exhaustive && Group(cursors) !! Group(others) && Lists(cursors) == Lists(others)
    requires RankedAnd.AndStart(cursors, pruned, offered, maxDocid) && BlockMaxWand.BlocksBehind(cursors, 0)
    requires RankedAnd.AndStart(others, exhaustive, offered, maxDocid)
    requires Alike(pruned, exhaustive, offered)
    modifies pruned, exhaustive, Group(cursors)`pos, Group(cursors)`blockPos, Group(others)`pos
    ensures SameResult(pruned, exhaustive)
  {
    hide RankedAnd.AllSound, BlockMaxWand.BlocksBehind, Total, InAll;
    assert |Lists(cursors)| == |cursors| && |Lists(others)| == |others|;
    BlockMaxRankedAnd.Query(cursors, pruned, maxDocid, offered);
    RankedAnd.Query(others, exhaustive, maxDocid, offered);
    if |cursors| == 0 {
      AlikeAgree(pruned, exhaustive, offered);
    } else {
      AlikeAgree(pruned, exhaustive, offered + EntriesOf(Lists(cursors), CommonDocs(Lists(cursors), maxDocid)));
    }
  }
}

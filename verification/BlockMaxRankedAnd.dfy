/** The conjunctive query with block bounds: a block configuration that cannot produce an
    entrant is left in one jump.
 */
module BlockMaxRankedAnd {
  import opened Postings
  import opened TopK
  import opened Cursors
  import opened Traversal
  import opened RankedAnd
  import BlockMaxWand

  /** The block of `c` ends at `p` or later, or it is the list's last. */
  ghost predicate BlockReaches(c: Cursor, p: nat)
    reads c
  {
    c.Valid() && (p <= c.BlockMaxDocid() || c.blockPos + 1 == |c.wand.blockDocids|)
  }

  /** Block pointers at `p`, with the snapshot of their bounds. */
  ghost predicate BlocksAt(cs: seq<Cursor>, n: nat, u: seq<real>, p: nat)
    reads cs
  {
    && |u| == n <= |cs|
    && forall i :: 0 <= i < n ==> BlockReaches(cs[i], p) && u[i] == cs[i].BlockBound()
  }

  method MoveBlock(c: Cursor, p: nat, ghost hi: nat, ghost b: nat)
    requires Sound(c, hi, b) && c.BlockBehind(b) && p <= b
    modifies c`blockPos
    ensures Sound(c, hi, b) && c.BlockBehind(b) && BlockReaches(c, p)
    ensures old(BlockReaches(c, p)) ==> c.blockPos == old(c.blockPos)
  {
    c.BlockMaxNextGeq(p);
  }

  method BoundOne(cs: seq<Cursor>, n: nat, p: nat, ghost u: seq<real>, ghost hi: nat, ghost b: nat)
    returns (bound: real)
    requires Distinct(cs) && AllSound(cs, hi, b) && BlockMaxWand.BlocksBehind(cs, b)
    requires n < |cs| && p <= b && BlocksAt(cs, n, u, p)
    modifies Group(cs)`blockPos
    ensures AllSound(cs, hi, b) && BlockMaxWand.BlocksBehind(cs, b)
    ensures BlocksAt(cs, n + 1, u + [bound], p)
    ensures forall j :: 0 <= j < |cs| && old(BlockReaches(cs[j], p)) ==> cs[j].blockPos == old(cs[j].blockPos)
  {
    hide Sound, BlockReaches;
    assert Sound(cs[n], hi, b);
    assert cs[n] in Group(cs);
    DistinctFrom(cs, n);
    assert forall i :: 0 <= i < |cs| ==> Sound(cs[i], hi, b);
    MoveBlock(cs[n], p, hi, b);
    bound := BoundOf(cs[n], p);
  }

  function BoundOf(c: Cursor, ghost p: nat): (r: real)
    requires BlockReaches(c, p)
    reads c
    ensures r == c.BlockBound()
  {
    c.BlockBound()
  }

  /** Moves every block pointer to the candidate and adds up the block bounds. */
  method BlockUpperBound(cs: seq<Cursor>, p: nat, ghost hi: nat, ghost b: nat)
    returns (bound: real, ghost u: seq<real>)
    requires Distinct(cs) && AllSound(cs, hi, b) && BlockMaxWand.BlocksBehind(cs, b) && p <= b
    modifies Group(cs)`blockPos
    ensures AllSound(cs, hi, b) && BlockMaxWand.BlocksBehind(cs, b)
    ensures BlocksAt(cs, |cs|, u, p) && bound == Sum(u)
    ensures forall j :: 0 <= j < |cs| && old(BlockReaches(cs[j], p)) ==> cs[j].blockPos == old(cs[j].blockPos)
  {
    hide AllSound, BlockMaxWand.BlocksBehind, BlocksAt;
    bound, u := 0.0, [];
    NoBounds(cs, p);
    for i := 0 to |cs|
      invariant AllSound(cs, hi, b) && BlockMaxWand.BlocksBehind(cs, b)
      invariant BlocksAt(cs, i, u, p) && bound == Sum(u)
      invariant forall j :: 0 <= j < |cs| && old(BlockReaches(cs[j], p)) ==> cs[j].blockPos == old(cs[j].blockPos)
    {
      var x := BoundOne(cs, i, p, u, hi, b);
      assert (u + [x])[..|u|] == u;
      u := u + [x];
      bound := bound + x;
    }
  }

  lemma NoBounds(cs: seq<Cursor>, p: nat)
    ensures BlocksAt(cs, 0, [], p)
  {
  }

  /** The end of the current block configuration. */
  method NextJump(cs: seq<Cursor>, hi: nat, ghost u: seq<real>, ghost p: nat) returns (jump: nat)
    requires BlocksAt(cs, |cs|, u, p)
    ensures IsJump(cs, hi, jump)
  {
    jump := hi;
    for i := 0 to |cs|
      invariant jump <= hi && forall j :: 0 <= j < i ==> BlockReaches(cs[j], p) && jump <= cs[j].BlockMaxDocid()
      invariant jump == hi || exists j :: 0 <= j < i && jump == cs[j].BlockMaxDocid()
    {
      assert BlockReaches(cs[i], p);
      if cs[i].BlockMaxDocid() < jump {
        jump := cs[i].BlockMaxDocid();
      }
    }
  }

  ghost predicate IsJump(cs: seq<Cursor>, hi: nat, jump: nat)
    reads cs`blockPos
  {
    && jump <= hi
    && (forall j :: 0 <= j < |cs| ==> cs[j].blockPos < |cs[j].wand.blockDocids| && jump <= cs[j].BlockMaxDocid())
    && (jump == hi || exists j :: 0 <= j < |cs| && jump == cs[j].BlockMaxDocid())
  }

  lemma JumpUnique(cs: seq<Cursor>, hi: nat, a: nat, b: nat)
    requires IsJump(cs, hi, a) && IsJump(cs, hi, b)
    ensures a == b
  {
  }

  /** Common documents inside a configuration that cannot enter are settled. */
  lemma JumpSettles(cs: seq<Cursor>, u: seq<real>, hi: nat, p: nat, jump: nat, d: nat)
    requires BlocksAt(cs, |cs|, u, p) && BlockMaxWand.BlocksBehind(cs, p) && IsJump(cs, hi, jump)
    requires p <= d <= jump
    ensures Total(Lists(cs), d) <= Sum(u)
  {
    forall i | 0 <= i < |cs| ensures ScoreAt(Lists(cs)[i], d) <= u[i] {
      assert BlockReaches(cs[i], p) && cs[i].BlockBehind(p);
      BlockBoundsScore(cs[i], p, d);
    }
    TotalAtMost(Lists(cs), d, u);
  }

  /** When the configuration ends before the candidate, some list is exhausted. */
  lemma Exhausted(cs: seq<Cursor>, u: seq<real>, hi: nat, p: nat, jump: nat, d: nat)
    requires BlocksAt(cs, |cs|, u, p) && IsJump(cs, hi, jump) && jump < p < hi && p <= d
    ensures !InAll(Lists(cs), d)
  {
    var j :| 0 <= j < |cs| && jump == cs[j].BlockMaxDocid();
    assert BlockReaches(cs[j], p);
    assert !Contains(cs[j].list, d);
    assert Lists(cs)[j] == cs[j].list;
  }

  /** After an exhausted list has moved the candidate back, nothing can change any more: the
      block pointers stand, their bound cannot enter and the next jump ends the query. */
  ghost predicate Stuck(cs: seq<Cursor>, u: seq<real>, threshold: real, candidate: nat, hi: nat)
    reads cs
  {
    && BlocksAt(cs, |cs|, u, candidate) && Sum(u) <= threshold
    && 0 < candidate && IsJump(cs, hi, candidate - 1)
  }

  /** The invariant while the candidate moves forward. */
  ghost predicate Advancing(
    cs: seq<Cursor>, i: nat, queue: TopkQueue, offered: multiset<Entry>, candidate: nat, hi: nat)
    reads cs, queue
  {
    && Distinct(cs) && AllSound(cs, hi, candidate) && BlockMaxWand.BlocksBehind(cs, candidate)
    && QueueAndReady(queue, Lists(cs), offered, hi, candidate) && OnCandidate(cs, i, candidate)
  }

  /** The invariant once every common document is settled and only the end is to be found. */
  ghost predicate Ending(
    cs: seq<Cursor>, queue: TopkQueue, offered: multiset<Entry>, candidate: nat, hi: nat, u: seq<real>)
    reads cs, queue
  {
    && Distinct(cs) && AllSound(cs, hi, hi) && BlockMaxWand.BlocksBehind(cs, hi)
    && QueueAndReady(queue, Lists(cs), offered, hi, hi) && candidate <= hi
    && Stuck(cs, u, queue.threshold, candidate, hi)
  }

  lemma RaiseBlocks(cs: seq<Cursor>, b: nat, b': nat)
    requires BlockMaxWand.BlocksBehind(cs, b) && b <= b'
    ensures BlockMaxWand.BlocksBehind(cs, b')
  {
    BlockMaxWand.ArrangedBlocks(cs, cs, b, b');
  }

  /** The configuration's bound can enter: align the cursors, and score when they agree. */
  method EnterStep(
    cs: seq<Cursor>, i0: nat, queue: TopkQueue, candidate: nat, hi: nat, ghost offered: multiset<Entry>)
    returns (i: nat, next: nat)
    requires |cs| > 0 && Advancing(cs, i0, queue, offered, candidate, hi) && candidate < hi
    modifies queue, Group(cs)`pos
    ensures queue.floor == old(queue.floor)
    ensures Advancing(cs, i, queue, offered, next, hi) && candidate < next
  {
    hide AllSound, QueueAndReady, Total, InAll, BlockMaxWand.BlocksBehind;
    i, next := Align(cs, i0, candidate, hi);
    if i == |cs| {
      next := ScoreCandidate(cs, queue, candidate, offered, hi);
      i := 1;
    } else {
      PassDocs(queue, Lists(cs), offered, hi, candidate, next);
      RaiseSound(cs, hi, candidate, next);
    }
    RaiseBlocks(cs, candidate, next);
  }

  /** The configuration's bound cannot enter and reaches the candidate: leave it. */
  lemma JumpForward(
    cs: seq<Cursor>, i: nat, queue: TopkQueue, offered: multiset<Entry>, candidate: nat, hi: nat, u: seq<real>, jump: nat)
    requires Advancing(cs, i, queue, offered, candidate, hi) && candidate <= jump
    requires BlocksAt(cs, |cs|, u, candidate) && Sum(u) <= queue.threshold && IsJump(cs, hi, jump)
    ensures Advancing(cs, 0, queue, offered, jump + 1, hi)
  {
    hide QueueAndReady, Total, InAll, Sum, BlocksAt, IsJump;
    forall d | candidate <= d < jump + 1 ensures Total(Lists(cs), d) <= queue.threshold {
      JumpSettles(cs, u, hi, candidate, jump, d);
    }
    PassDocs(queue, Lists(cs), offered, hi, candidate, jump + 1);
    RaiseSound(cs, hi, candidate, jump + 1);
    RaiseBlocks(cs, candidate, jump + 1);
  }

  /** The configuration ends before the candidate: no common document is left. */
  lemma NothingLeft(
    cs: seq<Cursor>, i: nat, queue: TopkQueue, offered: multiset<Entry>, candidate: nat, hi: nat, u: seq<real>, jump: nat)
    requires Advancing(cs, i, queue, offered, candidate, hi) && jump < candidate < hi
    requires BlocksAt(cs, |cs|, u, candidate) && IsJump(cs, hi, jump)
    ensures AllSound(cs, hi, hi) && BlockMaxWand.BlocksBehind(cs, hi)
    ensures QueueAndReady(queue, Lists(cs), offered, hi, hi)
    ensures Advancing(cs, 0, queue, offered, hi, hi)
  {
    hide QueueAndReady, Total, InAll, BlocksAt, IsJump;
    forall d | candidate <= d < hi ensures !InAll(Lists(cs), d) {
      Exhausted(cs, u, hi, candidate, jump, d);
    }
    PassDocs(queue, Lists(cs), offered, hi, candidate, hi);
    RaiseSound(cs, hi, candidate, hi);
    RaiseBlocks(cs, candidate, hi);
  }

  /** Moving the candidate back to the end of the exhausted configuration leaves the block
      pointers where they are. */
  lemma MovedBack(cs: seq<Cursor>, u: seq<real>, candidate: nat, back: nat)
    requires BlocksAt(cs, |cs|, u, candidate) && back <= candidate
    ensures BlocksAt(cs, |cs|, u, back)
  {
    forall i | 0 <= i < |cs| ensures BlockReaches(cs[i], back) && u[i] == cs[i].BlockBound() {
      assert BlockReaches(cs[i], candidate);
    }
  }

  lemma JumpBounded(cs: seq<Cursor>, hi: nat, jump: nat)
    requires IsJump(cs, hi, jump)
    ensures jump <= hi
  {
  }

  /** The loop invariant: the candidate moves forward until it is moved back, once. */
  ghost predicate Looping(
    cs: seq<Cursor>, i: nat, queue: TopkQueue, offered: multiset<Entry>, candidate: nat, hi: nat, ending: bool, u: seq<real>)
    reads cs, queue
  {
    if ending then Ending(cs, queue, offered, candidate, hi, u) else Advancing(cs, i, queue, offered, candidate, hi)
  }

  /** The block bound of the candidate.  After the candidate was moved back it is the bound
      found before, so it is refused again, and the next jump is the one just taken. */
  method BoundCandidate(
    cs: seq<Cursor>, queue: TopkQueue, candidate: nat, hi: nat,
    ghost i: nat, ghost offered: multiset<Entry>, ghost ending: bool, ghost u0: seq<real>)
    returns (bound: real, ghost u: seq<real>)
    requires Looping(cs, i, queue, offered, candidate, hi, ending, u0) && candidate < hi
    modifies Group(cs)`blockPos
    ensures BlocksAt(cs, |cs|, u, candidate) && bound == Sum(u)
    ensures !ending ==> Advancing(cs, i, queue, offered, candidate, hi)
    ensures ending ==> bound <= queue.threshold && 0 < candidate && IsJump(cs, hi, candidate - 1)
    ensures ending ==> Advancing(cs, 0, queue, offered, hi, hi)
  {
    hide AllSound, QueueAndReady, Total, BlockMaxWand.BlocksBehind;
    bound, u := BlockUpperBound(cs, candidate, hi, if ending then hi else candidate);
    if ending {
      assert u == u0;
    }
  }

  /** One iteration. */
  method Step(
    cs: seq<Cursor>, i0: nat, queue: TopkQueue, candidate: nat, hi: nat,
    ghost offered: multiset<Entry>, ghost ending0: bool, ghost u0: seq<real>)
    returns (i: nat, next: nat, ghost ending: bool, ghost u: seq<real>)
    requires |cs| > 0 && Looping(cs, i0, queue, offered, candidate, hi, ending0, u0) && candidate < hi
    modifies queue, Group(cs)`pos, Group(cs)`blockPos
    ensures queue.floor == old(queue.floor)
    ensures Looping(cs, i, queue, offered, next, hi, ending, u)
    ensures if ending then !ending0 else candidate < next && (ending0 ==> next == hi)
  {
    hide Advancing, Stuck, AllSound, QueueAndReady, Total, Sum, BlockMaxWand.BlocksBehind, BlocksAt, IsJump;
    i, ending := i0, false;
    var bound;
    bound, u := BoundCandidate(cs, queue, candidate, hi, i0, offered, ending0, u0);
    if queue.WouldEnter(bound) {
      i, next := EnterStep(cs, i0, queue, candidate, hi, offered);
    } else {
      i := 0;
      var jump := NextJump(cs, hi, u, candidate);
      JumpBounded(cs, hi, jump);
      if ending0 {
        JumpUnique(cs, hi, jump, candidate - 1);
      }
      if candidate == jump + 1 {
        // a list is exhausted
        if !ending0 {
          NothingLeft(cs, i0, queue, offered, candidate, hi, u, jump);
        }
        next := hi;
      } else {
        next := jump + 1;
        if candidate <= jump {
          JumpForward(cs, i0, queue, offered, candidate, hi, u, jump);
        } else {
          NothingLeft(cs, i0, queue, offered, candidate, hi, u, jump);
          MovedBack(cs, u, candidate, next);
          NowStuck(cs, i0, queue, offered, candidate, hi, u, jump);
          ending := true;
        }
      }
    }
  }

  lemma NowStuck(
    cs: seq<Cursor>, i: nat, queue: TopkQueue, offered: multiset<Entry>, candidate: nat, hi: nat, u: seq<real>, jump: nat)
    requires Advancing(cs, i, queue, offered, candidate, hi) && jump + 1 < candidate < hi
    requires BlocksAt(cs, |cs|, u, jump + 1) && Sum(u) <= queue.threshold && IsJump(cs, hi, jump)
    requires AllSound(cs, hi, hi) && BlockMaxWand.BlocksBehind(cs, hi)
    requires QueueAndReady(queue, Lists(cs), offered, hi, hi)
    ensures Ending(cs, queue, offered, jump + 1, hi, u)
  {
  }

  lemma LoopBounds(
    cs: seq<Cursor>, i: nat, queue: TopkQueue, offered: multiset<Entry>, candidate: nat, hi: nat, ending: bool, u: seq<real>)
    requires Looping(cs, i, queue, offered, candidate, hi, ending, u)
    ensures ending ==> QueueAndReady(queue, Lists(cs), offered, hi, hi)
    ensures !ending ==> QueueAndReady(queue, Lists(cs), offered, hi, candidate)
  {
  }

  method Run(cs: seq<Cursor>, queue: TopkQueue, maxDocid: nat, ghost offered: multiset<Entry>)
    requires |cs| > 0 && AndStart(cs, queue, offered, maxDocid) && BlockMaxWand.BlocksBehind(cs, 0)
    modifies queue, Group(cs)`pos, Group(cs)`blockPos
    ensures queue.Valid() && queue.floor == old(queue.floor)
    ensures queue.Exact(offered + EntriesOf(Lists(cs), CommonDocs(Lists(cs), maxDocid)))
  {
    hide AllSound, QueueAndReady, Total, InAll, BlockMaxWand.BlocksBehind, Ending;
    BeginAnd(cs, queue, offered, maxDocid);
    var candidate: nat, i: nat := cs[0].Docid(), 1;
    RaiseBlocks(cs, 0, candidate);
    ghost var ending, u := false, [];
    while candidate < maxDocid
      invariant Looping(cs, i, queue, offered, candidate, maxDocid, ending, u)
      invariant queue.floor == old(queue.floor)
      decreases if candidate >= maxDocid then 0 else if ending then 1 else 2, maxDocid - candidate
    {
      i, candidate, ending, u := Step(cs, i, queue, candidate, maxDocid, offered, ending, u);
    }
    LoopBounds(cs, i, queue, offered, candidate, maxDocid, ending, u);
    EndAnd(queue, Lists(cs), offered, maxDocid, if ending then maxDocid else candidate);
  }

  method Query(cursors: seq<Cursor>, queue: TopkQueue, maxDocid: nat, ghost offered: multiset<Entry>)
    requires AndStart(cursors, queue, offered, maxDocid) && BlockMaxWand.BlocksBehind(cursors, 0)
    modifies queue, Group(cursors)`pos, Group(cursors)`blockPos
    ensures queue.Valid() && queue.floor == old(queue.floor)
    ensures cursors != [] ==> queue.Exact(offered + EntriesOf(Lists(cursors), CommonDocs(Lists(cursors), maxDocid)))
    ensures cursors == [] ==> queue.q == old(queue.q)
  {
    hide AllSound, Total, InAll, BlockMaxWand.BlocksBehind;
    if |cursors| == 0 {
      return;
    }
    var cs := SortBySize(cursors);
    ArrangedAndStart(cs, cursors, queue, offered, maxDocid);
    BlockMaxWand.ArrangedBlocks(cs, cursors, 0, 0);
    Run(cs, queue, maxDocid, offered);
    SameEntries(Lists(cs), Lists(cursors), CommonDocs(Lists(cs), maxDocid));
  }
}

/** The bounded queue every ranked query fills, and what it means for its contents to
    be the exact top k of a set of documents.
 */
module TopK {
  import opened Postings

  datatype Entry = Entry(score: real, docid: nat)

  /* ----- Exactness, stated on the entries alone ----- */

  /** Entries hold each document at most once, with its true total. */
  ghost predicate Faithful(m: multiset<Entry>, ls: seq<PostingList>, docs: set<nat>) {
    forall e :: e in m ==> e.docid in docs && e.score == Total(ls, e.docid) && m[e] == 1
  }

  ghost predicate Holds(m: multiset<Entry>, ls: seq<PostingList>, d: nat) {
    Entry(Total(ls, d), d) in m
  }

  /** The k best documents of `docs` with a total above `floor`; ties at the k-th place
      may be broken either way. */
  ghost predicate IsTopK(m: multiset<Entry>, k: nat, floor: real, ls: seq<PostingList>, docs: set<nat>) {
    && |m| <= k
    && Faithful(m, ls, docs)
    && (forall e :: e in m ==> e.score > floor)
    && (forall d :: d in docs && Total(ls, d) > floor && !Holds(m, ls, d) ==>
          |m| == k && forall e :: e in m ==> e.score >= Total(ls, d))
  }

  /** The entries of some documents, each once. */
  ghost function EntriesOf(ls: seq<PostingList>, docs: set<nat>): (m: multiset<Entry>)
    ensures forall e :: m[e] == if e.docid in docs && e.score == Total(ls, e.docid) then 1 else 0
  {
    multiset(set d | d in docs :: Entry(Total(ls, d), d))
  }

  /** The k best of the entries that were offered, among those above `floor`.  What was offered
      more than once counts as often. */
  ghost predicate IsBestOf(m: multiset<Entry>, k: nat, floor: real, offered: multiset<Entry>) {
    && |m| <= k && m <= offered
    && (forall e :: e in m ==> e.score > floor)
    && (forall e :: m[e] < offered[e] && e.score > floor ==> |m| == k && forall x :: x in m ==> x.score >= e.score)
  }

  /** When every document is offered once, the best of what was offered are the best documents. */
  lemma BestOfDocuments(m: multiset<Entry>, k: nat, floor: real, ls: seq<PostingList>, docs: set<nat>)
    ensures IsBestOf(m, k, floor, EntriesOf(ls, docs)) <==> IsTopK(m, k, floor, ls, docs)
  {
    var all := EntriesOf(ls, docs);
    if IsBestOf(m, k, floor, all) {
      forall e | e in m ensures e.docid in docs && e.score == Total(ls, e.docid) && m[e] == 1 {
        assert m[e] <= all[e];
      }
      forall d | d in docs && Total(ls, d) > floor && !Holds(m, ls, d)
        ensures |m| == k && forall e :: e in m ==> e.score >= Total(ls, d)
      {
        assert m[Entry(Total(ls, d), d)] < all[Entry(Total(ls, d), d)];
      }
    }
    if IsTopK(m, k, floor, ls, docs) {
      forall e ensures m[e] <= all[e] {
        assert e in m ==> all[e] == 1;
      }
      forall e | m[e] < all[e] && e.score > floor
        ensures |m| == k && forall x :: x in m ==> x.score >= e.score
      {
        assert e == Entry(Total(ls, e.docid), e.docid);
        assert !Holds(m, ls, e.docid);
      }
    }
  }

  /** The entries above the floor. */
  ghost function Above(offered: multiset<Entry>, floor: real): (m: multiset<Entry>)
    ensures forall e :: m[e] == if e.score > floor then offered[e] else 0
    decreases |offered|
  {
    if offered == multiset{} then multiset{}
    else
      var e :| e in offered;
      Above(offered - multiset{e}, floor) + if e.score > floor then multiset{e} else multiset{}
  }

  lemma Contained<T>(a: multiset<T>, b: multiset<T>)
    requires forall e :: a[e] <= b[e]
    ensures |a| <= |b| && (|a| == |b| ==> a == b)
  {
    assert a <= b;
    assert b == a + (b - a);
  }

  /** A large enough queue ends with everything above the floor. */
  lemma AboveIsBest(offered: multiset<Entry>, floor: real)
    ensures IsBestOf(Above(offered, floor), |offered| + 1, floor, offered)
  {
    Contained(Above(offered, floor), offered);
  }

  /** Whatever its size, a queue of the best that was offered holds the best documents if and
      only if nothing above the floor was offered twice. */
  lemma OfferedOnceIff(offered: multiset<Entry>, floor: real, ls: seq<PostingList>, docs: set<nat>)
    requires forall e :: e in offered <==> e in EntriesOf(ls, docs)
    ensures (forall k: nat, m :: 0 < k && IsBestOf(m, k, floor, offered) ==> IsTopK(m, k, floor, ls, docs))
            <==> forall e :: offered[e] > 1 ==> e.score <= floor
  {
    if forall e :: offered[e] > 1 ==> e.score <= floor {
      forall k: nat, m | 0 < k && IsBestOf(m, k, floor, offered) ensures IsTopK(m, k, floor, ls, docs) {
        OfferedOnce(offered, floor, ls, docs, m, k);
      }
    }
    if e :| offered[e] > 1 && e.score > floor {
      var k, m := |offered| + 1, Above(offered, floor);
      AboveIsBest(offered, floor);
      assert e in m && m[e] != 1;
      assert !IsTopK(m, k, floor, ls, docs);
    }
  }

  lemma OfferedOnce(
    offered: multiset<Entry>, floor: real, ls: seq<PostingList>, docs: set<nat>, m: multiset<Entry>, k: nat)
    requires forall e :: e in offered <==> e in EntriesOf(ls, docs)
    requires forall e :: offered[e] > 1 ==> e.score <= floor
    requires IsBestOf(m, k, floor, offered)
    ensures IsTopK(m, k, floor, ls, docs)
  {
    var all := EntriesOf(ls, docs);
    forall e ensures m[e] <= all[e] {
      assert m[e] <= offered[e];
      assert e in offered <==> e in all;
    }
    forall e | m[e] < all[e] && e.score > floor ensures |m| == k && forall x :: x in m ==> x.score >= e.score {
      assert e in offered;
    }
    BestOfDocuments(m, k, floor, ls, docs);
  }

  /** Some selection is best, for every size. */
  lemma {:induction false} BestExists(k: nat, floor: real, offered: multiset<Entry>) returns (m: multiset<Entry>)
    requires 0 < k
    ensures IsBestOf(m, k, floor, offered)
    decreases |offered|
  {
    m := multiset{};
    if offered != multiset{} {
      var e :| e in offered;
      var rest := offered - multiset{e};
      assert offered == rest + multiset{e};
      m := BestExists(k, floor, rest);
      m := AddBest(m, e, k, floor, rest);
    }
  }

  lemma AddBest(m: multiset<Entry>, e: Entry, k: nat, floor: real, offered: multiset<Entry>) returns (m': multiset<Entry>)
    requires 0 < k && IsBestOf(m, k, floor, offered)
    ensures IsBestOf(m', k, floor, offered + multiset{e})
  {
    m' := m;
    if e.score > floor && |m| < k {
      m' := m + multiset{e};
    } else if e.score > floor {
      var least := LeastEntry(m);
      if least.score < e.score {
        m' := m + multiset{e} - multiset{least};
      }
    }
  }

  lemma {:induction false} LeastEntry(m: multiset<Entry>) returns (least: Entry)
    requires |m| > 0
    ensures least in m && forall x :: x in m ==> least.score <= x.score
    decreases |m|
  {
    least :| least in m;
    var rest := m - multiset{least};
    assert forall x :: x in m ==> x in rest || x == least;
    if |rest| > 0 {
      var other := LeastEntry(rest);
      if other.score < least.score {
        least := other;
      }
    }
  }

  /** What the next entry has to exceed when the best of what was offered are in the queue. */
  ghost predicate ThresholdIs(t: real, k: nat, floor: real, offered: multiset<Entry>) {
    exists m :: IsBestOf(m, k, floor, offered) && EntryScore(m, k, floor, t)
  }

  /** The floor while there is room, else the least score. */
  ghost predicate EntryScore(m: multiset<Entry>, k: nat, floor: real, t: real) {
    if |m| < k then t == floor
    else (exists e :: e in m && e.score == t) && forall e :: e in m ==> e.score >= t
  }

  ghost function ThresholdOf(k: nat, floor: real, offered: multiset<Entry>): (t: real)
    requires 0 < k
    ensures ThresholdIs(t, k, floor, offered)
  {
    ThresholdExists(k, floor, offered);
    var t :| ThresholdIs(t, k, floor, offered);
    t
  }

  lemma ThresholdExists(k: nat, floor: real, offered: multiset<Entry>)
    requires 0 < k
    ensures exists t :: ThresholdIs(t, k, floor, offered)
  {
    var m := BestExists(k, floor, offered);
    if |m| < k {
      assert EntryScore(m, k, floor, floor);
      assert ThresholdIs(floor, k, floor, offered);
    } else {
      var least := LeastEntry(m);
      assert EntryScore(m, k, floor, least.score);
      assert ThresholdIs(least.score, k, floor, offered);
    }
  }

  lemma {:induction false} AsSequence(m: multiset<Entry>) returns (q: seq<Entry>)
    ensures multiset(q) == m
    decreases |m|
  {
    q := [];
    if m != multiset{} {
      var e :| e in m;
      var rest := AsSequence(m - multiset{e});
      q := rest + [e];
    }
  }

  /** Which of equally scored entries are held does not matter for the threshold. */
  lemma ThresholdUnique(s: real, t: real, k: nat, floor: real, offered: multiset<Entry>)
    requires 0 < k && ThresholdIs(s, k, floor, offered) && ThresholdIs(t, k, floor, offered)
    ensures s == t
  {
    hide IsBestOf;
    var a :| IsBestOf(a, k, floor, offered) && EntryScore(a, k, floor, s);
    var b :| IsBestOf(b, k, floor, offered) && EntryScore(b, k, floor, t);
    var p := AsSequence(a);
    var q := AsSequence(b);
    ExactAnswersAgree(p, q, k, floor, offered);
    if |a| >= k {
      SomeScore(p, q, s);
      SomeScore(q, p, t);
    }
  }

  lemma SomeScore(p: seq<Entry>, q: seq<Entry>, s: real)
    requires multiset(Scores(p)) == multiset(Scores(q)) && exists e :: e in multiset(p) && e.score == s
    ensures exists e :: e in multiset(q) && e.score == s
  {
    var e :| e in multiset(p) && e.score == s;
    var i :| 0 <= i < |p| && p[i] == e;
    assert Scores(p)[i] in multiset(Scores(q));
    var j :| 0 <= j < |q| && Scores(q)[j] == s;
    assert q[j] in multiset(q);
  }

  lemma {:induction false} EntryCount(ls: seq<PostingList>, docs: set<nat>)
    ensures |EntriesOf(ls, docs)| == |docs|
    decreases |docs|
  {
    if docs == {} {
      assert EntriesOf(ls, docs) == multiset{};
    } else {
      var d :| d in docs;
      EntryCount(ls, docs - {d});
      assert EntriesOf(ls, docs) == EntriesOf(ls, docs - {d}) + multiset{Entry(Total(ls, d), d)};
    }
  }

  /** The documents that total at least as much as `d`. */
  ghost function Rivals(ls: seq<PostingList>, docs: set<nat>, d: nat): set<nat> {
    set x | x in docs && Total(ls, x) >= Total(ls, d)
  }

  /** An answer over some documents that leaves `d` out is right about it if k others keep up. */
  lemma RivalsSuffice(
    m: multiset<Entry>, k: nat, floor: real, ls: seq<PostingList>, docs: set<nat>, d: nat)
    requires IsTopK(m, k, floor, ls, docs) && Total(ls, d) > floor && |Rivals(ls, docs, d)| >= k
    ensures |m| == k && forall e :: e in m ==> e.score >= Total(ls, d)
  {
    var rivals := Rivals(ls, docs, d);
    if forall x :: x in rivals ==> Holds(m, ls, x) {
      EntryCount(ls, rivals);
      forall e ensures EntriesOf(ls, rivals)[e] <= m[e] {
        assert e in EntriesOf(ls, rivals) ==> Holds(m, ls, e.docid);
      }
      Contained(EntriesOf(ls, rivals), m);
    }
  }

  /** An answer over some documents is right about `d` only if k others keep up. */
  lemma RivalsNeeded(m: multiset<Entry>, k: nat, ls: seq<PostingList>, docs: set<nat>, d: nat)
    requires Faithful(m, ls, docs) && |m| == k && forall e :: e in m ==> e.score >= Total(ls, d)
    ensures |Rivals(ls, docs, d)| >= k
  {
    var rivals := Rivals(ls, docs, d);
    EntryCount(ls, rivals);
    forall e ensures m[e] <= EntriesOf(ls, rivals)[e] {
      assert e in m ==> e.docid in rivals && m[e] == 1;
    }
    Contained(m, EntriesOf(ls, rivals));
  }

  /** Every answer over some of the documents answers for all of them if and only if each
      document left out, when above the floor, has k rivals among the others. */
  lemma PartAnswersAllIff(k: nat, floor: real, ls: seq<PostingList>, part: set<nat>, all: set<nat>)
    requires 0 < k && part <= all
    ensures (forall m :: IsTopK(m, k, floor, ls, part) ==> IsTopK(m, k, floor, ls, all))
            <==> forall d :: d in all && d !in part && Total(ls, d) > floor ==> |Rivals(ls, part, d)| >= k
  {
    hide Total;
    if forall d :: d in all && d !in part && Total(ls, d) > floor ==> |Rivals(ls, part, d)| >= k {
      forall m: multiset<Entry> | IsTopK(m, k, floor, ls, part) ensures IsTopK(m, k, floor, ls, all) {
        forall d | d in all && d !in part && Total(ls, d) > floor
          ensures |m| == k && forall e :: e in m ==> e.score >= Total(ls, d)
        {
          RivalsSuffice(m, k, floor, ls, part, d);
        }
      }
    }
    if forall m :: IsTopK(m, k, floor, ls, part) ==> IsTopK(m, k, floor, ls, all) {
      var m := BestExists(k, floor, EntriesOf(ls, part));
      BestOfDocuments(m, k, floor, ls, part);
      assert IsTopK(m, k, floor, ls, all);
      forall d | d in all && d !in part && Total(ls, d) > floor ensures |Rivals(ls, part, d)| >= k {
        assert !Holds(m, ls, d);
        RivalsNeeded(m, k, ls, part, d);
      }
    }
  }

  lemma RivalsAmong(ls: seq<PostingList>, docs: set<nat>, d: nat)
    ensures |Rivals(ls, docs, d)| <= |docs|
  {
    var rivals := Rivals(ls, docs, d);
    assert docs == rivals + (docs - rivals);
  }

  /** For queues of every size, they do if and only if no document left out is above the floor. */
  lemma PartAnswersAllAlwaysIff(floor: real, ls: seq<PostingList>, part: set<nat>, all: set<nat>)
    requires part <= all
    ensures (forall k: nat, m :: 0 < k && IsTopK(m, k, floor, ls, part) ==> IsTopK(m, k, floor, ls, all))
            <==> forall d :: d in all && d !in part ==> Total(ls, d) <= floor
  {
    hide Total, IsTopK;
    if forall d :: d in all && d !in part ==> Total(ls, d) <= floor {
      forall k: nat, m | 0 < k && IsTopK(m, k, floor, ls, part) ensures IsTopK(m, k, floor, ls, all) {
        PartAnswersAllIff(k, floor, ls, part, all);
      }
    }
    if forall k: nat, m :: 0 < k && IsTopK(m, k, floor, ls, part) ==> IsTopK(m, k, floor, ls, all) {
      PartAnswersAllIff(|part| + 1, floor, ls, part, all);
      forall d | d in all && d !in part ensures Total(ls, d) <= floor {
        RivalsAmong(ls, part, d);
      }
    }
  }

  /** Equal totals make equal entries. */
  lemma SameEntries(a: seq<PostingList>, b: seq<PostingList>, docs: set<nat>)
    requires forall d: nat :: Total(a, d) == Total(b, d)
    ensures EntriesOf(a, docs) == EntriesOf(b, docs)
  {
    forall e ensures EntriesOf(a, docs)[e] == EntriesOf(b, docs)[e] {
      assert Total(a, e.docid) == Total(b, e.docid);
    }
  }

  ghost function Scores(q: seq<Entry>): seq<real> {
    seq(|q|, i requires 0 <= i < |q| => q[i].score)
  }

  /** Two selections that may differ only in how ties are broken. */
  ghost predicate TiedApart(a: multiset<Entry>, b: multiset<Entry>) {
    |a| == |b| && forall e, f :: a[e] > b[e] && b[f] > a[f] ==> e.score == f.score
  }

  lemma RemoveEntry(a: seq<Entry>, i: nat) returns (a': seq<Entry>)
    requires i < |a|
    ensures |a'| == |a| - 1 && multiset(a') == multiset(a) - multiset{a[i]}
    ensures multiset(Scores(a)) == multiset(Scores(a')) + multiset{a[i].score}
  {
    a' := a[..i] + a[i + 1..];
    assert a == a[..i] + [a[i]] + a[i + 1..];
    assert Scores(a) == Scores(a[..i]) + [a[i].score] + Scores(a[i + 1..]);
    assert Scores(a') == Scores(a[..i]) + Scores(a[i + 1..]);
  }

  /** Every entry of one selection has an equally scored partner in the other. */
  lemma TiedPartner(a: multiset<Entry>, b: multiset<Entry>, x: Entry) returns (y: Entry)
    requires TiedApart(a, b) && x in a
    ensures y in b && y.score == x.score
    ensures TiedApart(a - multiset{x}, b - multiset{y})
  {
    if x in b {
      y := x;
    } else {
      if forall f :: b[f] <= a[f] {
        Contained(b, a - multiset{x});
        assert false;
      }
      y :| b[y] > a[y];
      assert a[x] > b[x];
    }
  }

  lemma {:induction false} TiedApartSameScores(a: seq<Entry>, b: seq<Entry>)
    requires TiedApart(multiset(a), multiset(b))
    ensures multiset(Scores(a)) == multiset(Scores(b))
    decreases |a|
  {
    if a != [] {
      assert a[0] in multiset(a);
      var y := TiedPartner(multiset(a), multiset(b), a[0]);
      var j :| 0 <= j < |b| && b[j] == y;
      var a' := RemoveEntry(a, 0);
      var b' := RemoveEntry(b, j);
      TiedApartSameScores(a', b');
    } else {
      assert |multiset(b)| == |b|;
    }
  }

  /** A selection with room left holds every entry above the floor as often as it was offered. */
  lemma FullyHeld(a: multiset<Entry>, b: multiset<Entry>, k: nat, floor: real, offered: multiset<Entry>)
    requires IsBestOf(a, k, floor, offered) && IsBestOf(b, k, floor, offered)
    requires |a| < k
    ensures |b| <= |a|
  {
    forall e ensures b[e] <= a[e] {
      if e in b {
        assert b[e] <= offered[e];
      }
    }
    Contained(b, a);
  }

  /** Any two exact answers to the same query carry the same scores, so "exact" leaves no
      freedom except which of several equally scored documents is kept. */
  lemma ExactAnswersAgree(a: seq<Entry>, b: seq<Entry>, k: nat, floor: real, offered: multiset<Entry>)
    requires IsBestOf(multiset(a), k, floor, offered) && IsBestOf(multiset(b), k, floor, offered)
    ensures |a| == |b| && multiset(Scores(a)) == multiset(Scores(b))
  {
    if |a| < k {
      FullyHeld(multiset(a), multiset(b), k, floor, offered);
    }
    if |b| < k {
      FullyHeld(multiset(b), multiset(a), k, floor, offered);
    }
    var ma, mb := multiset(a), multiset(b);
    forall e, f | ma[e] > mb[e] && mb[f] > ma[f] ensures e.score == f.score {
      assert mb[e] < offered[e] && ma[f] < offered[f];
    }
    TiedApartSameScores(a, b);
  }

  /* ----- The queue's own state ----- */

  /** What a min-heap promises about its vector: the front is a least entry. */
  ghost predicate FrontIsLeast(q: seq<Entry>) {
    forall i :: 0 <= i < |q| ==> q[0].score <= q[i].score
  }

  ghost predicate QueueOk(q: seq<Entry>, threshold: real, k: nat, floor: real) {
    && 0 < k && |q| <= k
    && FrontIsLeast(q)
    && (forall e :: e in multiset(q) ==> e.score > floor)
    && threshold == (if |q| < k then floor else q[0].score)
  }

  /** Everything offered is in the queue or can no longer enter it. */
  ghost predicate Accounted(m: multiset<Entry>, threshold: real, offered: multiset<Entry>) {
    m <= offered && forall e :: m[e] < offered[e] ==> e.score <= threshold
  }

  /** For a well-formed queue, exactness is: nothing but what was offered is held, and what is
      not held cannot enter. */
  lemma ExactIffAccounted(q: seq<Entry>, threshold: real, k: nat, floor: real, offered: multiset<Entry>)
    requires QueueOk(q, threshold, k, floor)
    ensures IsBestOf(multiset(q), k, floor, offered) <==> Accounted(multiset(q), threshold, offered)
  {
    var m := multiset(q);
    assert forall e :: e in m ==> exists i :: 0 <= i < |q| && q[i] == e;
    if |q| == k {
      assert q[0] in m;
    }
    if IsBestOf(m, k, floor, offered) {
      forall e | m[e] < offered[e] ensures e.score <= threshold {
      }
    }
    if Accounted(m, threshold, offered) {
      forall e | m[e] < offered[e] && e.score > floor
        ensures |m| == k && forall x :: x in m ==> x.score >= e.score
      {
      }
    }
  }

  /** The threshold of an exact queue is settled by what was offered. */
  lemma ThresholdSettled(q: seq<Entry>, threshold: real, k: nat, floor: real, offered: multiset<Entry>)
    requires QueueOk(q, threshold, k, floor) && IsBestOf(multiset(q), k, floor, offered)
    ensures 0 < k && threshold == ThresholdOf(k, floor, offered)
  {
    if |q| == k {
      assert q[0] in multiset(q);
      assert forall e :: e in multiset(q) ==> exists i :: 0 <= i < |q| && q[i] == e;
    }
    assert EntryScore(multiset(q), k, floor, threshold);
    assert ThresholdIs(threshold, k, floor, offered);
    hide IsBestOf, ThresholdIs;
    ThresholdUnique(threshold, ThresholdOf(k, floor, offered), k, floor, offered);
  }

  /** More may count as offered as long as it cannot enter. */
  lemma AccountMore(m: multiset<Entry>, threshold: real, offered: multiset<Entry>, more: multiset<Entry>)
    requires Accounted(m, threshold, offered)
    requires forall e :: offered[e] <= more[e] && (offered[e] < more[e] ==> e.score <= threshold)
    ensures Accounted(m, threshold, more)
  {
    forall e ensures m[e] <= more[e] {
      assert m[e] <= offered[e] <= more[e];
    }
    forall e | m[e] < more[e] ensures e.score <= threshold {
      assert m[e] < offered[e] || offered[e] < more[e];
    }
  }

  /** The effect of one accepted insertion: the new entry is added and, when that makes
      k + 1 entries, a least one is dropped. */
  ghost predicate InsertedInto(before: multiset<Entry>, e: Entry, k: nat, after: multiset<Entry>) {
    if |before| < k then after == before + multiset{e}
    else exists least ::
        && least in before + multiset{e}
        && (forall x :: x in before + multiset{e} ==> least.score <= x.score)
        && after == before + multiset{e} - multiset{least}
  }

  lemma InsertionRaisesThreshold(
    q: seq<Entry>, threshold: real, e: Entry, q': seq<Entry>, threshold': real, k: nat, floor: real)
    requires QueueOk(q, threshold, k, floor) && QueueOk(q', threshold', k, floor)
    requires e.score > threshold && InsertedInto(multiset(q), e, k, multiset(q'))
    ensures threshold <= threshold'
    ensures multiset(q') <= multiset(q) + multiset{e}
    ensures forall x :: multiset(q')[x] < (multiset(q) + multiset{e})[x] ==> x.score <= threshold'
  {
    if |q'| == k {
      assert q'[0] in multiset(q');
      assert q'[0] in multiset(q) || q'[0] == e;
    }
    forall x | multiset(q')[x] < (multiset(q) + multiset{e})[x] ensures x.score <= threshold' {
      assert |q| == k && q'[0] in multiset(q) + multiset{e};
    }
  }

  /** An accepted insertion keeps the queue exact, now over the new entry too. */
  lemma InsertionKeepsExact(
    q: seq<Entry>, threshold: real, e: Entry, q': seq<Entry>, threshold': real, k: nat, floor: real,
    offered: multiset<Entry>)
    requires QueueOk(q, threshold, k, floor) && QueueOk(q', threshold', k, floor)
    requires e.score > threshold && InsertedInto(multiset(q), e, k, multiset(q'))
    requires IsBestOf(multiset(q), k, floor, offered)
    ensures IsBestOf(multiset(q'), k, floor, offered + multiset{e})
    ensures threshold <= threshold'
  {
    hide QueueOk, InsertedInto, IsBestOf;
    ExactIffAccounted(q, threshold, k, floor, offered);
    InsertionRaisesThreshold(q, threshold, e, q', threshold', k, floor);
    forall x | multiset(q')[x] < (offered + multiset{e})[x] ensures x.score <= threshold' {
      assert multiset(q')[x] < (multiset(q) + multiset{e})[x] || multiset(q)[x] < offered[x];
    }
    ExactIffAccounted(q', threshold', k, floor, offered + multiset{e});
  }

  /** A refused one does so too. */
  lemma RefusalKeepsExact(q: seq<Entry>, threshold: real, e: Entry, k: nat, floor: real, offered: multiset<Entry>)
    requires QueueOk(q, threshold, k, floor) && e.score <= threshold
    requires IsBestOf(multiset(q), k, floor, offered)
    ensures IsBestOf(multiset(q), k, floor, offered + multiset{e})
  {
    hide QueueOk, IsBestOf;
    ExactIffAccounted(q, threshold, k, floor, offered);
    AccountMore(multiset(q), threshold, offered, offered + multiset{e});
    ExactIffAccounted(q, threshold, k, floor, offered + multiset{e});
  }

  /* ----- The queue ----- */

  /** The standard library's heap operations are modelled by what they promise: a
      permutation of the range with a least entry where the heap order puts it. */
  method PushHeap(q: seq<Entry>) returns (h: seq<Entry>)
    requires |q| > 0 && FrontIsLeast(q[..|q| - 1])
    ensures FrontIsLeast(h) && multiset(h) == multiset(q)
  {
    var n := |q| - 1;
    if n > 0 && q[n].score < q[0].score {
      h := q[0 := q[n]][n := q[0]];
    } else {
      h := q;
    }
    assert forall i :: 0 <= i < n ==> q[..n][0].score <= q[..n][i].score;
  }

  method LeastIndex(q: seq<Entry>) returns (least: nat)
    requires |q| > 0
    ensures least < |q| && forall i :: 0 <= i < |q| ==> q[least].score <= q[i].score
  {
    least := 0;
    for i := 1 to |q|
      invariant 0 <= least < i && forall j :: 0 <= j < i ==> q[least].score <= q[j].score
    {
      if q[i].score < q[least].score { least := i; }
    }
  }

  function Swap(q: seq<Entry>, i: nat, j: nat): (r: seq<Entry>)
    requires i < |q| && j < |q|
    ensures multiset(r) == multiset(q)
  {
    q[i := q[j]][j := q[i]]
  }

  method PopHeap(q: seq<Entry>) returns (h: seq<Entry>)
    requires |q| > 0
    ensures multiset(h) == multiset(q)
    ensures |h| > 0 && forall i :: 0 <= i < |h| ==> h[|h| - 1].score <= h[i].score
    ensures FrontIsLeast(h[..|h| - 1])
  {
    var n := |q| - 1;
    var least := LeastIndex(q);
    h := Swap(q, least, n);
    assert h[n] == q[least] && |h| == |q|;
    assert forall i :: 0 <= i < |h| ==> h[n].score <= h[i].score;
    if n > 0 {
      var second := LeastIndex(h[..n]);
      h := LeastFirst(h, n, second);
    }
  }

  lemma Swapped(h: seq<Entry>, n: nat, second: nat)
    requires second < n < |h| && forall i :: 0 <= i < n ==> h[..n][second].score <= h[..n][i].score
    requires forall i :: 0 <= i < |h| ==> h[n].score <= h[i].score
    ensures var t := Swap(h, 0, second);
            |t| == |h| && FrontIsLeast(t[..n]) && t[n] == h[n] && forall i :: 0 <= i < |t| ==> t[n].score <= t[i].score
  {
    assert forall i :: 0 <= i < n ==> h[..n][i] == h[i];
  }

  function LeastFirst(h: seq<Entry>, n: nat, second: nat): (t: seq<Entry>)
    requires second < n < |h| && forall i :: 0 <= i < n ==> h[..n][second].score <= h[..n][i].score
    requires forall i :: 0 <= i < |h| ==> h[n].score <= h[i].score
    ensures |t| == |h| && multiset(t) == multiset(h) && FrontIsLeast(t[..n])
    ensures t[n] == h[n] && forall i :: 0 <= i < |t| ==> t[n].score <= t[i].score
  {
    Swapped(h, n, second);
    Swap(h, 0, second)
  }

  /** Descending order of scores, as `sort_heap` leaves a min-heap. */
  ghost predicate Descending(q: seq<Entry>) {
    forall i, j :: 0 <= i < j < |q| ==> q[i].score >= q[j].score
  }

  method InsertDescending(s: seq<Entry>, e: Entry) returns (t: seq<Entry>)
    requires Descending(s)
    ensures Descending(t) && multiset(t) == multiset(s) + multiset{e}
  {
    var i := 0;
    while i < |s| && s[i].score >= e.score
      invariant 0 <= i <= |s| && forall j :: 0 <= j < i ==> s[j].score >= e.score
    {
      i := i + 1;
    }
    t := s[..i] + [e] + s[i..];
    InsertedAt(s, i, e);
  }

  lemma InsertedAt(s: seq<Entry>, i: nat, e: Entry)
    requires Descending(s) && i <= |s| && forall j :: 0 <= j < i ==> s[j].score >= e.score
    requires i < |s| ==> s[i].score < e.score
    ensures var t := s[..i] + [e] + s[i..];
            Descending(t) && multiset(t) == multiset(s) + multiset{e}
  {
    InsertedDescends(s, i, e);
    assert s == s[..i] + s[i..];
  }

  lemma InsertedDescends(s: seq<Entry>, i: nat, e: Entry)
    requires Descending(s) && i <= |s| && forall j :: 0 <= j < i ==> s[j].score >= e.score
    requires i < |s| ==> s[i].score < e.score
    ensures Descending(s[..i] + [e] + s[i..])
  {
    var t := s[..i] + [e] + s[i..];
    forall a, b | 0 <= a < b < |t| ensures t[a].score >= t[b].score {
      assert t[a] == if a < i then s[a] else if a == i then e else s[a - 1];
      assert t[b] == if b < i then s[b] else if b == i then e else s[b - 1];
    }
  }

  method SortHeap(q: seq<Entry>) returns (s: seq<Entry>)
    ensures Descending(s) && multiset(s) == multiset(q)
  {
    s := [];
    for n := 0 to |q|
      invariant Descending(s) && multiset(s) == multiset(q[..n])
    {
      assert q[..n + 1] == q[..n] + [q[n]];
      s := InsertDescending(s, q[n]);
    }
    assert q[..|q|] == q;
  }

  /** Dropping a least entry, which the heap order has moved to the back. */
  lemma DropLast(before: multiset<Entry>, h: seq<Entry>)
    requires |h| > 1 && multiset(h) == before && FrontIsLeast(h[..|h| - 1])
    requires forall i :: 0 <= i < |h| ==> h[|h| - 1].score <= h[i].score
    ensures multiset(h[..|h| - 1]) == before - multiset{h[|h| - 1]}
    ensures h[|h| - 1] in before && h[0] in before
    ensures forall x :: x in before ==> h[|h| - 1].score <= x.score
  {
    assert h == h[..|h| - 1] + [h[|h| - 1]];
    forall x | x in before ensures h[|h| - 1].score <= x.score {
      assert x in multiset(h);
    }
    assert h[|h| - 1] in multiset(h) && h[0] in multiset(h);
  }

  lemma HeldAboveFloor(q: seq<Entry>, threshold: real, k: nat, floor: real)
    requires QueueOk(q, threshold, k, floor)
    ensures floor <= threshold
  {
    if |q| == k {
      assert q[0] in multiset(q);
    }
  }

  /** There was room for one more entry. */
  lemma Pushed(q: seq<Entry>, threshold: real, e: Entry, q': seq<Entry>, k: nat, floor: real)
    requires QueueOk(q, threshold, k, floor) && |q| < k && e.score > threshold
    requires FrontIsLeast(q') && multiset(q') == multiset(q + [e])
    ensures |q'| == |q| + 1
    ensures QueueOk(q', if |q'| == k then q'[0].score else threshold, k, floor)
    ensures InsertedInto(multiset(q), e, k, multiset(q'))
  {
    HeldAboveFloor(q, threshold, k, floor);
    assert |q'| == |multiset(q')| == |multiset(q + [e])| == |q| + 1;
  }

  /** The queue was full, and a least entry has been moved to the back. */
  lemma Popped(q: seq<Entry>, threshold: real, e: Entry, h: seq<Entry>, k: nat, floor: real)
    requires QueueOk(q, threshold, k, floor) && |q| == k && e.score > threshold
    requires |h| > 0 && multiset(h) == multiset(q + [e])
    requires FrontIsLeast(h[..|h| - 1]) && forall i :: 0 <= i < |h| ==> h[|h| - 1].score <= h[i].score
    ensures |h| == k + 1 && QueueOk(h[..k], h[0].score, k, floor)
    ensures InsertedInto(multiset(q), e, k, multiset(h[..k]))
  {
    HeldAboveFloor(q, threshold, k, floor);
    assert |h| == |multiset(h)| == |multiset(q + [e])| == k + 1;
    DropLast(multiset(q) + multiset{e}, h);
    forall x | x in multiset(h[..k]) ensures x.score > floor {
      assert x in multiset(q) + multiset{e};
    }
  }

  lemma PositivePrefix(s: seq<Entry>, size: nat)
    requires Descending(s) && size <= |s|
    requires forall i :: 0 <= i < size ==> s[i].score > 0.0
    requires size < |s| ==> s[size].score <= 0.0
    ensures forall e :: multiset(s[..size])[e] == if e.score > 0.0 then multiset(s)[e] else 0
    ensures (forall e :: e in multiset(s) ==> e.score > 0.0) ==> s[..size] == s
  {
    assert s == s[..size] + s[size..];
    forall e ensures multiset(s[..size])[e] == if e.score > 0.0 then multiset(s)[e] else 0 {
      assert e in multiset(s[size..]) ==> e in s[size..];
      assert e in multiset(s[..size]) ==> e in s[..size];
    }
    if size < |s| {
      assert s[size] in multiset(s);
    }
  }

  class TopkQueue {
    var threshold: real
    const k: nat
    var q: seq<Entry>
    ghost var floor: real  // the threshold the run started from

    ghost predicate Valid()
      reads this
    {
      QueueOk(q, threshold, k, floor)
    }

    /** The queue holds the best of what was offered. */
    ghost predicate Exact(offered: multiset<Entry>)
      reads this
    {
      IsBestOf(multiset(q), k, floor, offered)
    }

    constructor (k: nat)
      requires 0 < k
      ensures Valid() && this.k == k && q == [] && floor == 0.0
    {
      threshold, this.k, q, floor := 0.0, k, [], 0.0;
    }

    method SetThreshold(t: real)
      requires Valid() && q == []
      modifies this`threshold, this`floor
      ensures Valid() && floor == t
    {
      threshold, floor := t, t;
    }

    predicate WouldEnter(score: real)
      reads this`threshold
    {
      score > threshold
    }

    method Insert(score: real, docid: nat) returns (entered: bool)
      requires Valid()
      modifies this`threshold, this`q
      ensures Valid()
      ensures entered == (score > old(threshold))
      ensures !entered ==> q == old(q) && threshold == old(threshold)
      ensures entered ==> InsertedInto(multiset(old(q)), Entry(score, docid), k, multiset(q))
    {
      hide InsertedInto;
      if !WouldEnter(score) {
        return false;
      }
      q := q + [Entry(score, docid)];
      if |q| <= k {
        assert q[..|q| - 1] == old(q);
        q := PushHeap(q);
        Pushed(old(q), threshold, Entry(score, docid), q, k, floor);
        if |q| == k {
          threshold := q[0].score;
        }
      } else {
        var h := PopHeap(q);
        Popped(old(q), threshold, Entry(score, docid), h, k, floor);
        q := h[..|h| - 1];
        threshold := q[0].score;
      }
      return true;
    }

    /** Sorts best first and cuts the entries whose score is not positive. */
    method Finalize()
      requires Valid()
      modifies this`q
      ensures Descending(q)
      ensures forall e :: multiset(q)[e] == if e.score > 0.0 then multiset(old(q))[e] else 0
      ensures floor >= 0.0 ==> multiset(q) == multiset(old(q))
    {
      var s := SortHeap(q);
      var size := 0;
      while size < |s| && s[size].score > 0.0
        invariant 0 <= size <= |s| && forall i :: 0 <= i < size ==> s[i].score > 0.0
      {
        size := size + 1;
      }
      PositivePrefix(s, size);
      q := s[..size];
    }

    method Clear()
      requires 0 < k
      modifies this
      ensures Valid() && q == [] && floor == 0.0
    {
      q, threshold, floor := [], 0.0, 0.0;
    }
  }

  ghost predicate NonIncreasing(s: seq<real>) {
    forall i, j :: 0 <= i < j < |s| ==> s[i] >= s[j]
  }

  lemma LastIsLeast(s: seq<real>, x: real)
    requires NonIncreasing(s) && x in multiset(s)
    ensures s != [] && s[|s| - 1] <= x
  {
    var i :| 0 <= i < |s| && s[i] == x;
  }

  lemma PrefixNonIncreasing(s: seq<real>, n: nat)
    requires NonIncreasing(s) && n <= |s|
    ensures NonIncreasing(s[..n])
  {
  }

  ghost predicate SameBag(s: seq<real>, t: seq<real>) {
    multiset(s) == multiset(t)
  }

  lemma SameSize(s: seq<real>, t: seq<real>)
    requires SameBag(s, t)
    ensures |s| == |t|
  {
    assert |multiset(s)| == |s| && |multiset(t)| == |t|;
  }

  lemma LastsAgree(s: seq<real>, t: seq<real>)
    requires NonIncreasing(s) && NonIncreasing(t) && SameBag(s, t) && |s| == |t| > 0
    ensures s[|s| - 1] == t[|t| - 1]
  {
    assert s[|s| - 1] in multiset(s) && t[|t| - 1] in multiset(t);
    LastIsLeast(t, s[|s| - 1]);
    LastIsLeast(s, t[|t| - 1]);
  }

  lemma DropEqualLasts(s: seq<real>, t: seq<real>, n: nat)
    requires SameBag(s, t) && |s| == |t| == n + 1 && s[n] == t[n]
    ensures SameBag(s[..n], t[..n])
  {
    assert s == s[..n] + [s[n]] && t == t[..n] + [t[n]];
    assert multiset(s[..n]) == multiset(s) - multiset{s[n]};
    assert multiset(t[..n]) == multiset(t) - multiset{t[n]};
  }

  lemma {:induction false} SortedEqual(s: seq<real>, t: seq<real>)
    requires NonIncreasing(s) && NonIncreasing(t) && SameBag(s, t)
    ensures s == t
  {
    hide NonIncreasing, SameBag;
    SameSize(s, t);
    if s != [] {
      var n := |s| - 1;
      LastsAgree(s, t);
      DropEqualLasts(s, t, n);
      PrefixNonIncreasing(s, n);
      PrefixNonIncreasing(t, n);
      SortedEqual(s[..n], t[..n]);
      assert s == s[..n] + [s[n]] && t == t[..n] + [t[n]];
    }
  }

  /** After `Finalize`, two exact answers rank the same scores position by position. */
  lemma ExactRankingsAgree(a: seq<Entry>, b: seq<Entry>, k: nat, floor: real, offered: multiset<Entry>)
    requires IsBestOf(multiset(a), k, floor, offered) && IsBestOf(multiset(b), k, floor, offered)
    requires Descending(a) && Descending(b)
    ensures Scores(a) == Scores(b)
  {
    ExactAnswersAgree(a, b, k, floor, offered);
    assert NonIncreasing(Scores(a)) && NonIncreasing(Scores(b));
    SortedEqual(Scores(a), Scores(b));
  }
}

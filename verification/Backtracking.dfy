// Why a backtracking search that keeps a path of snapshots halts, whatever it
// picks.  Only three sizes of the search matter: the weights of the snapshots
// on the path, the weight of the candidates left now, and the queue's length.
module Backtracking {

  // One move: a candidate is dropped, the last path node is undone and its
  // version dropped, or a node is pushed.  A push either keeps the weight and
  // takes an element off the queue, or lowers the weight and may add anything.
  ghost predicate Move(w: seq<nat>, c: nat, q: nat, w': seq<nat>, c': nat, q': nat) {
    || (w' == w && c' < c)
    || (|w| > 0 && w' == w[..|w| - 1] && c' < w[|w| - 1])
    || (w' == w + [c'] && (c' < c || (c' == c && q' < q)))
  }

  least predicate Halts(w: seq<nat>, c: nat, q: nat) {
    forall w': seq<nat>, c': nat, q': nat :: Move(w, c, q, w', c', q') ==> Halts(w', c', q')
  }

  // Undoing the last node leads to a search that halts.
  ghost predicate UndoHalts(w: seq<nat>) {
    |w| > 0 ==>
      forall u: seq<nat>, c: nat, q: nat | u == w[..|w| - 1] && c < w[|w| - 1] :: Halts(u, c, q)
  }

  lemma {:induction false} SearchHalts(w: seq<nat>, c: nat, q: nat)
    requires UndoHalts(w)
    ensures Halts(w, c, q)
    decreases c, q
  {
    forall w': seq<nat>, c': nat, q': nat | Move(w, c, q, w', c', q')
      ensures Halts(w', c', q')
    {
      if w' == w && c' < c {
        SearchHalts(w, c', q');
      } else if w' == w + [c'] && (c' < c || (c' == c && q' < q)) {
        forall u: seq<nat>, b: nat, p: nat | u == w'[..|w'| - 1] && b < w'[|w'| - 1]
          ensures Halts(u, b, p)
        {
          assert u == w;
          SearchHalts(w, b, p);
        }
        SearchHalts(w', c', q');
      }
    }
  }

  lemma {:induction false} HaltingRank(w: seq<nat>, c: nat, q: nat) returns (k: ORDINAL)
    requires Halts(w, c, q)
    ensures Halts#[k](w, c, q)
  {
    k :| Halts#[k](w, c, q);
  }

  lemma {:induction false} RankDrops(k: ORDINAL, w: seq<nat>, c: nat, q: nat, w': seq<nat>, c': nat, q': nat)
    returns (k': ORDINAL)
    requires Halts#[k](w, c, q)
    requires Move(w, c, q, w', c', q')
    ensures k' < k && Halts#[k'](w', c', q')
    decreases k
  {
    if k.Offset == 0 {
      var j :| j < k && Halts#[j](w, c, q);
      k' := RankDrops(j, w, c, q, w', c', q');
    } else {
      k' := k - 1;
    }
  }
}

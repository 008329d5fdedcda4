/**
 * The "pick highest" scan that both handlers run: start from a lead of
 * (0, null) and let a candidate take the lead only with a strictly higher
 * score, visiting candidates in order. Also the ascending order in which
 * `Object.keys` lists the integer keys of the history.
 */
module Selection {
  import opened Options

  datatype Candidate = Candidate(id: nat, score: real)

  /** The running maximum and the id holding it (`maxActivity`/`selectedId`, `maxScore`/`activeId`). */
  datatype Pick = Pick(best: real, selected: Option<nat>)

  const NoPick: Pick := Pick(0.0, None)

  /** One comparison of the scan. */
  function Consider(p: Pick, c: Candidate): Pick
  {
    if c.score > p.best then Pick(c.score, Some(c.id)) else p
  }

  /** The scan over the candidates in order. */
  function PickHighest(cs: seq<Candidate>): Pick
    decreases |cs|
  {
    if |cs| == 0 then NoPick else Consider(PickHighest(cs[..|cs| - 1]), cs[|cs| - 1])
  }

  predicate NonePositive(cs: seq<Candidate>)
  {
    forall q | 0 <= q < |cs| :: cs[q].score <= 0.0
  }

  /** Position p holds the maximum, is the first to do so, and its score is positive. */
  ghost predicate FirstMaximum(cs: seq<Candidate>, p: nat)
  {
    && p < |cs|
    && cs[p].score > 0.0
    && (forall q | 0 <= q < |cs| :: cs[q].score <= cs[p].score)
    && (forall q | 0 <= q < p :: cs[q].score < cs[p].score)
  }

  /** Nobody is picked exactly when no score is positive; the lead then stays (0, null). */
  lemma {:induction false} PickHighestNone(cs: seq<Candidate>)
    ensures PickHighest(cs).selected.None? <==> NonePositive(cs)
    ensures NonePositive(cs) ==> PickHighest(cs) == NoPick
    ensures !NonePositive(cs) ==> PickHighest(cs).best > 0.0
  {
    if |cs| > 0 {
      var n := |cs| - 1;
      PickHighestNone(cs[..n]);
      assert forall q | 0 <= q < n :: cs[..n][q] == cs[q];
      if !NonePositive(cs[..n]) {
        assert !NonePositive(cs);
      }
    }
  }

  lemma {:induction false} PickHighestBelow(cs: seq<Candidate>, s: real)
    requires s > 0.0
    requires forall q | 0 <= q < |cs| :: cs[q].score < s
    ensures PickHighest(cs).best < s
  {
    if |cs| > 0 {
      var n := |cs| - 1;
      assert forall q | 0 <= q < n :: cs[..n][q] == cs[q];
      PickHighestBelow(cs[..n], s);
    }
  }

  /** The scan ends on the first position holding the positive maximum. */
  lemma {:induction false} PickHighestSelects(cs: seq<Candidate>, p: nat)
    requires FirstMaximum(cs, p)
    ensures PickHighest(cs) == Pick(cs[p].score, Some(cs[p].id))
  {
    var n := |cs| - 1;
    assert forall q | 0 <= q < n :: cs[..n][q] == cs[q];
    if p < n {
      assert FirstMaximum(cs[..n], p);
      PickHighestSelects(cs[..n], p);
    } else {
      PickHighestBelow(cs[..n], cs[p].score);
    }
  }

  /** Some positive score means some first maximum. */
  lemma {:induction false} FirstMaximumExists(cs: seq<Candidate>) returns (p: nat)
    requires !NonePositive(cs)
    ensures FirstMaximum(cs, p)
  {
    var n := |cs| - 1;
    assert forall q | 0 <= q < n :: cs[..n][q] == cs[q];
    if NonePositive(cs[..n]) {
      p := n;
    } else {
      var p0 := FirstMaximumExists(cs[..n]);
      if cs[n].score > cs[p0].score {
        p := n;
      } else {
        p := p0;
      }
    }
  }

  lemma Least(keys: set<nat>) returns (k: nat)
    requires keys != {}
    ensures k in keys && forall j | j in keys :: k <= j
    decreases keys
  {
    var x :| x in keys;
    if keys == {x} {
      k := x;
    } else {
      var m := Least(keys - {x});
      k := if x < m then x else m;
      assert forall j | j in keys :: j == x || j in keys - {x};
    }
  }

  lemma LeastExists(keys: set<nat>)
    requires keys != {}
    ensures exists k :: k in keys && forall j | j in keys :: k <= j
  {
    var k := Least(keys);
  }

  function MinKey(keys: set<nat>): (k: nat)
    requires keys != {}
    ensures k in keys && forall j | j in keys :: k <= j
  {
    LeastExists(keys);
    var k :| k in keys && forall j | j in keys :: k <= j; k
  }

  /** The keys in ascending numeric order, as `Object.keys` lists integer-like keys. */
  function SortedKeys(keys: set<nat>): (ks: seq<nat>)
    ensures forall k :: k in keys <==> k in ks
    ensures forall p, q | 0 <= p < q < |ks| :: ks[p] < ks[q]
    decreases keys
  {
    if keys == {} then []
    else
      var k := MinKey(keys);
      [k] + SortedKeys(keys - {k})
  }
}

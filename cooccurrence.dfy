/**
 * The co-occurrence weight the extractor accumulates: within one
 * paragraph every ordered pair of positions holding two different names
 * adds one to the edge between them, so a paragraph mentioning A `a` times
 * and B `b` times adds `a * b` to the edge A-B.
 */
module CoOccurrence {
  import opened Recognition

  /** What one paragraph adds to the edge from `a` to `b`. */
  function ParagraphWeight(p: seq<string>, a: string, b: string): (w: nat)
  {
    if a == b then 0 else Count(p, a) * Count(p, b)
  }

  /** The edge weight from `a` to `b` over a sequence of paragraphs. */
  function Weight(ps: seq<seq<string>>, a: string, b: string): (w: nat)
  {
    if |ps| == 0 then 0
    else Weight(ps[..|ps| - 1], a, b) + ParagraphWeight(ps[|ps| - 1], a, b)
  }

  /** No name is linked to itself. */
  lemma {:induction false} NoSelfWeight(ps: seq<seq<string>>, a: string)
    ensures Weight(ps, a, a) == 0
  {
    if |ps| > 0 {
      NoSelfWeight(ps[..|ps| - 1], a);
    }
  }

  /** The weight does not depend on the direction of the edge. */
  lemma {:induction false} WeightSymmetric(ps: seq<seq<string>>, a: string, b: string)
    ensures Weight(ps, a, b) == Weight(ps, b, a)
  {
    if |ps| > 0 {
      WeightSymmetric(ps[..|ps| - 1], a, b);
    }
  }

  /** Paragraphs are independent: the weight over two runs of paragraphs
      is the sum of the weights over each. */
  lemma {:induction false} WeightAppend(ps: seq<seq<string>>, qs: seq<seq<string>>, a: string, b: string)
    ensures Weight(ps + qs, a, b) == Weight(ps, a, b) + Weight(qs, a, b)
    decreases |qs|
  {
    if |qs| > 0 {
      var n := |qs| - 1;
      assert (ps + qs)[..|ps + qs| - 1] == ps + qs[..n];
      WeightAppend(ps, qs[..n], a, b);
    } else {
      assert ps + qs == ps;
    }
  }

  /** Two names are linked exactly when they are different and some
      paragraph mentions both. */
  lemma {:induction false} WeightPositive(ps: seq<seq<string>>, a: string, b: string)
    ensures Weight(ps, a, b) > 0 <==> a != b && exists i :: 0 <= i < |ps| && a in ps[i] && b in ps[i]
  {
    if |ps| > 0 {
      var n := |ps| - 1;
      WeightPositive(ps[..n], a, b);
      assert forall i :: 0 <= i < n ==> ps[..n][i] == ps[i];
      if a != b && a in ps[n] && b in ps[n] {
        assert Count(ps[n], a) > 0 && Count(ps[n], b) > 0;
      }
      if ParagraphWeight(ps[n], a, b) > 0 {
        assert a in multiset(ps[n]) && b in multiset(ps[n]);
      }
    }
  }
}

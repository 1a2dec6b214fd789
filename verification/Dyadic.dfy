/**
  Naturally aligned blocks of power-of-two size, measured in units of the smallest block.
 */
module Dyadic {
  import opened Multiples

  function Pow2(n: nat): (p: nat)
    ensures p >= 1
  {
    if n == 0 then 1 else 2 * Pow2(n - 1)
  }

  datatype Block = Block(start: nat, order: nat) {
    function End(): nat { start + Pow2(order) }

    predicate Aligned() { Multiple(start, Pow2(order)) }

    predicate Has(u: int) { start <= u < End() }

    /** The enclosing aligned block of twice the size. */
    function Parent(): Block { Block(AlignDown(start, Pow2(order + 1)), order + 1) }

    /** The other half of the parent. */
    function Buddy(): Block {
      var p := Parent().start;
      Block(if p == start then start + Pow2(order) else p, order)
    }
  }

  predicate Inside(b: Block, c: Block) {
    c.start <= b.start && b.End() <= c.End()
  }

  predicate Apart(b: Block, c: Block) {
    b.End() <= c.start || c.End() <= b.start
  }

  // ----- powers of two

  lemma {:induction false} Pow2Multiple(i: nat, j: nat)
    requires i <= j
    ensures Multiple(Pow2(j), Pow2(i)) && Pow2(i) <= Pow2(j)
    decreases j
  {
    if i < j {
      Pow2Multiple(i, j - 1);
      MultipleSum(Pow2(j - 1), Pow2(j - 1), Pow2(i));
    } else {
      assert Multiple(Pow2(i) - Pow2(i), Pow2(i));
    }
  }

  lemma Pow2Monotone(i: nat, j: nat)
    requires i <= j
    ensures Pow2(i) <= Pow2(j)
  {
    Pow2Multiple(i, j);
  }

  lemma AlignedDown(i: nat, j: nat, x: nat)
    requires i <= j && Multiple(x, Pow2(j))
    ensures Multiple(x, Pow2(i))
  {
    Pow2Multiple(i, j);
    MultipleTransitive(x, Pow2(j), Pow2(i));
  }

  // ----- blocks

  /** Two aligned blocks overlap only if the smaller lies inside the larger. */
  lemma NestedOrApart(b: Block, c: Block)
    requires b.Aligned() && c.Aligned() && b.order <= c.order
    ensures Inside(b, c) || Apart(b, c)
  {
    var k := Pow2(b.order);
    Pow2Multiple(b.order, c.order);
    MultipleTransitive(c.start, Pow2(c.order), k);
    MultipleSum(c.start, Pow2(c.order), k);
    if b.start < c.start {
      MultiplesStep(b.start, c.start, k);
    } else if b.start < c.End() {
      MultiplesStep(b.start, c.End(), k);
    }
  }

  /** A block and its buddy are the two halves of their parent. */
  lemma Halves(b: Block)
    requires b.Aligned()
    ensures b.Parent().Aligned() && b.Buddy().Aligned()
    ensures b.Buddy() != b && b.Buddy().Buddy() == b && b.Buddy().Parent() == b.Parent()
    ensures if b.start == b.Parent().start then b.Buddy().start == b.End()
            else b.Buddy().start == b.Parent().start && b.start == b.Buddy().End()
    ensures b.Parent().End() == b.Parent().start + 2 * Pow2(b.order)
  {
    var k := Pow2(b.order);
    assert Pow2(b.order + 1) == 2 * k;
    var h := EvenOrOddMultiple(b.start, k);
  }

  /** The lower half of an aligned block is aligned, and the upper half is its buddy. */
  lemma LowerHalf(b: Block)
    requires b.Aligned() && b.order >= 1
    ensures var h := Block(b.start, b.order - 1);
            h.Aligned() && h.Parent() == b && h.Buddy() == Block(b.start + Pow2(b.order - 1), b.order - 1)
  {
    AlignedDown(b.order - 1, b.order, b.start);
    AlignDownOfMultiple(b.start, Pow2(b.order));
  }
}

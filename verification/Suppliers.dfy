/** The suppliers of a part: four of the `total` suppliers, a fixed step apart around the circle. */
module Suppliers {
  const PER_PART := 4

  function Step(part: nat, total: nat): nat
    requires part >= 1 && total >= 1
  {
    total / PER_PART + (part - 1) / total
  }

  function Supplier(part: nat, s: nat, total: nat): nat
    requires part >= 1 && total >= 1
  {
    (part + s * Step(part, total)) % total + 1
  }

  predicate AllDifferent(part: nat, total: nat)
    requires part >= 1 && total >= 1
  {
    forall i, j :: 0 <= i < j < PER_PART ==> Supplier(part, i, total) != Supplier(part, j, total)
  }

  /** The suppliers exist. */
  lemma SupplierExists(part: nat, s: nat, total: nat)
    requires part >= 1 && total >= 1
    ensures 1 <= Supplier(part, s, total) <= total
  {
  }

  lemma SameResidue(a: nat, d: nat, m: nat)
    requires m >= 1
    ensures (a + d) % m == a % m <==> d % m == 0
  {
    ResidueOfSum(a, d, m, a / m, a % m, d / m, d % m);
  }

  lemma ResidueOfSum(a: nat, d: nat, m: nat, qa: nat, ra: nat, qd: nat, rd: nat)
    requires m >= 1 && ra < m && rd < m && a == qa * m + ra && d == qd * m + rd
    ensures (a + d) % m == if ra + rd < m then ra + rd else ra + rd - m
  {
    if ra + rd < m {
      assert (qa + qd) * m == qa * m + qd * m;
      ResidueIs(a + d, qa + qd, m, ra + rd);
    } else {
      assert (qa + qd + 1) * m == qa * m + qd * m + m;
      ResidueIs(a + d, qa + qd + 1, m, ra + rd - m);
    }
  }

  lemma ResidueIs(x: nat, q: nat, m: nat, r: nat)
    requires m >= 1 && r < m && x == q * m + r
    ensures x % m == r
  {
    var k := x / m - q;
    assert k * m == x / m * m - q * m;
    MultipleIsFar(k, m);
  }

  lemma MultipleIsFar(k: int, m: nat)
    ensures k >= 1 ==> k * m >= m
    ensures k <= -1 ==> -(k * m) >= m
  {
    if k >= 1 { assert (k - 1) * m >= 0; }
    if k <= -1 { assert (-k - 1) * m >= 0; }
  }

  /** Suppliers `i` and `j` of a part are the same exactly when the steps between them go around the circle. */
  lemma SameSupplier(part: nat, i: nat, j: nat, total: nat)
    requires part >= 1 && total >= 1 && i <= j
    ensures Supplier(part, i, total) == Supplier(part, j, total) <==> (j - i) * Step(part, total) % total == 0
  {
    hide Step;
    var t := Step(part, total);
    assert part + j * t == (part + i * t) + (j - i) * t;
    SameResidue(part + i * t, (j - i) * t, total);
  }

  /** The four suppliers of a part are different exactly when one, two or three steps do not go around the circle. */
  lemma DifferentIff(part: nat, total: nat)
    requires part >= 1 && total >= 1
    ensures var t := Step(part, total);
            AllDifferent(part, total) <==> t % total != 0 && 2 * t % total != 0 && 3 * t % total != 0
  {
    hide Step, Supplier;
    forall i, j | 0 <= i < j < PER_PART
      ensures Supplier(part, i, total) == Supplier(part, j, total) <==> (j - i) * Step(part, total) % total == 0
    {
      SameSupplier(part, i, j, total);
    }
    assert AllDifferent(part, total) ==>
        Supplier(part, 0, total) != Supplier(part, 1, total)
        && Supplier(part, 0, total) != Supplier(part, 2, total) && Supplier(part, 0, total) != Supplier(part, 3, total);
  }

  /** They are different whenever there is a step at all and three steps do not reach around the circle. */
  lemma DifferentIfShort(part: nat, total: nat)
    requires part >= 1 && total >= 1 && 0 < Step(part, total) && 3 * Step(part, total) < total
    ensures AllDifferent(part, total)
  {
    hide Step, AllDifferent;
    var t := Step(part, total);
    DifferentIff(part, total);
    ResidueIs(t, 0, total, t);
    ResidueIs(2 * t, 0, total, 2 * t);
    ResidueIs(3 * t, 0, total, 3 * t);
  }

  /** With fewer suppliers than a part needs, some of its suppliers coincide, whatever the part. */
  lemma FewSuppliers(part: nat, total: nat)
    requires part >= 1 && 1 <= total < PER_PART
    ensures !AllDifferent(part, total)
  {
    hide Step, AllDifferent;
    var t := Step(part, total);
    DifferentIff(part, total);
    ResidueIs(total * t, t, total, 0);
  }

  /** Without a step, as with three suppliers, the first part has one supplier four times over. */
  lemma TooFewSuppliers()
    ensures 3 * Step(1, 3) < 3 && Supplier(1, 0, 3) == Supplier(1, 1, 3) == Supplier(1, 2, 3) == Supplier(1, 3, 3)
  {
  }
}

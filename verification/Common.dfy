/** What several modules share: optional values, and products that the solver need not look into. */
module Common {
  datatype Option<+T> = None | Some(value: T)

  function Times(a: nat, b: nat): nat { a * b }

  lemma ConstantTimes(a: nat, b: nat)
    ensures Times(a, b) == a * b
  {
  }

  lemma Distributes(a: nat, b: nat, d: nat)
    ensures Times(a + b, d) == Times(a, d) + Times(b, d)
  {
  }

  lemma ZeroTimes(d: nat)
    ensures Times(0, d) == 0
  {
  }

  lemma One(d: nat)
    ensures Times(1, d) == d
  {
  }

  lemma Commutes(a: nat, b: nat)
    ensures Times(a, b) == Times(b, a)
  {
  }

  lemma Scale(a: nat, b: nat, d: nat)
    requires a <= b
    ensures Times(a, d) <= Times(b, d)
  {
    Distributes(b - a, a, d);
  }

  lemma Cancel(a: nat, b: nat, d: nat)
    requires Times(a, d) < Times(b, d)
    ensures a < b
  {
    hide Times;
    if b <= a { Scale(b, a, d); }
  }
}

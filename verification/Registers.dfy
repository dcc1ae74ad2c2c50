/** Steps of a linear register, on any group: what the checksum needs, without its bits. */
module Registers {
  /** `f` taken `n` times. */
  function Times<T>(f: T -> T, n: nat, x: T): T
    decreases n
  {
    if n == 0 then x else Times(f, n - 1, f(x))
  }

  ghost predicate Linear<T(!new)>(f: T -> T, plus: (T, T) -> T) {
    forall x, y {:trigger f(plus(x, y))} {:trigger plus(f(x), f(y))} :: f(plus(x, y)) == plus(f(x), f(y))
  }

  ghost predicate Injective<T(!new)>(f: T -> T) {
    forall x, y :: f(x) == f(y) ==> x == y
  }

  lemma {:induction false} TimesIsLinear<T(!new)>(f: T -> T, plus: (T, T) -> T, n: nat, x: T, y: T)
    requires Linear(f, plus)
    ensures Times(f, n, plus(x, y)) == plus(Times(f, n, x), Times(f, n, y))
    decreases n
  {
    if n > 0 {
      TimesIsLinear(f, plus, n - 1, f(x), f(y));
    }
  }

  lemma {:induction false} TimesIsInjective<T(!new)>(f: T -> T, n: nat, x: T, y: T)
    requires Injective(f) && Times(f, n, x) == Times(f, n, y)
    ensures x == y
    decreases n
  {
    if n > 0 {
      TimesIsInjective(f, n - 1, f(x), f(y));
    }
  }

  lemma PowerIsLinear<T(!new)>(f: T -> T, g: T -> T, plus: (T, T) -> T, n: nat)
    requires Linear(f, plus) && forall x :: g(x) == Times(f, n, x)
    ensures Linear(g, plus)
  {
    forall x, y
      ensures g(plus(x, y)) == plus(g(x), g(y))
    {
      TimesIsLinear(f, plus, n, x, y);
    }
  }

  lemma PowerIsInjective<T(!new)>(f: T -> T, g: T -> T, n: nat)
    requires Injective(f) && forall x :: g(x) == Times(f, n, x)
    ensures Injective(g)
  {
    forall x, y | g(x) == g(y)
      ensures x == y
    {
      TimesIsInjective(f, n, x, y);
    }
  }

  /** Four bytes taken in one after the other, or as a word: `w1` to `w3` are the later
      bytes, placed so that the steps before theirs only move them. */
  lemma FourSteps<T(!new)>(f: T -> T, plus: (T, T) -> T, x: T, b1: T, b2: T, b3: T, w1: T, w2: T, w3: T)
    requires Linear(f, plus) && f(w1) == b1 && f(f(w2)) == b2 && f(f(f(w3))) == b3
    ensures f(plus(f(plus(f(plus(f(x), b1)), b2)), b3)) == f(f(f(f(plus(plus(plus(x, w1), w2), w3)))))
  {
    var y := plus(x, w1);
    var z := plus(y, w2);
    assert plus(f(x), b1) == f(y);
    assert plus(f(f(y)), b2) == f(plus(f(y), f(w2))) == f(f(z));
    assert plus(f(f(f(z))), b3) == f(plus(f(f(z)), f(f(w3))));
    assert plus(f(f(z)), f(f(w3))) == f(plus(f(z), f(w3)));
    assert plus(f(z), f(w3)) == f(plus(z, w3));
  }

  /** A word divided out of the register byte by byte. */
  lemma FourParts<T(!new)>(f: T -> T, plus: (T, T) -> T, b0: T, b1: T, b2: T, b3: T, w1: T, w2: T, w3: T)
    requires Linear(f, plus) && f(w1) == b1 && f(f(w2)) == b2 && f(f(f(w3))) == b3
    ensures f(f(f(f(plus(plus(plus(b0, w1), w2), w3)))))
            == plus(plus(plus(f(f(f(f(b0)))), f(f(f(b1)))), f(f(b2))), f(b3))
  {
    var y := plus(b0, w1);
    var z := plus(y, w2);
    FourSums(f, plus, z, w3);
    FourSums(f, plus, y, w2);
    FourSums(f, plus, b0, w1);
  }

  lemma FourSums<T(!new)>(f: T -> T, plus: (T, T) -> T, x: T, y: T)
    requires Linear(f, plus)
    ensures f(f(f(f(plus(x, y))))) == plus(f(f(f(f(x)))), f(f(f(f(y)))))
  {
    assert f(plus(x, y)) == plus(f(x), f(y));
    assert f(plus(f(x), f(y))) == plus(f(f(x)), f(f(y)));
    assert f(plus(f(f(x)), f(f(y)))) == plus(f(f(f(x))), f(f(f(y))));
  }

  ghost predicate Associative<T(!new)>(plus: (T, T) -> T) {
    forall x, y, z :: plus(x, plus(y, z)) == plus(plus(x, y), z)
  }

  lemma ChainOfFive<T(!new)>(plus: (T, T) -> T, l: T, x: T, y: T, z: T, w: T)
    requires Associative(plus)
    ensures plus(l, plus(plus(plus(x, y), z), w)) == plus(plus(plus(plus(l, x), y), z), w)
  {
  }

  lemma FourStepsTell<T(!new)>(f: T -> T, x: T, y: T)
    requires Injective(f) && f(f(f(f(x)))) == f(f(f(f(y))))
    ensures x == y
  {
  }
}

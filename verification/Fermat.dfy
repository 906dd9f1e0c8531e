/** Fermat's little theorem, on which modular inversion rests. */
module Fermat {
  import opened Congruence

  ghost predicate Prime(p: nat) {
    p >= 2 && forall d | 2 <= d < p :: p % d != 0
  }

  /** No multiple of a below p * a is divisible by the prime p, unless a is. */
  lemma {:induction false} NoSmallZero(p: nat, a: int, k: nat)
    requires Prime(p) && !Cong(a, 0, p) && 0 < k < p
    ensures !Cong(a * k, 0, p)
    decreases k
  {
    hide Cong;
    assert a * 1 == a;
    if Cong(a * k, 0, p) {
      if k != 1 {
        var q, r := p / k, p % k;
        DivModOf(p, k);
        RemainderZero(p, a, k, q, r);
        NoSmallZero(p, a, r);
      }
    }
  }

  lemma RemainderZero(p: nat, a: int, k: nat, q: int, r: int)
    requires p > 0 && Cong(a * k, 0, p) && p == q * k + r
    ensures Cong(a * r, 0, p)
  {
    hide Cong;
    CongScale(a * k, 0, q, p);
    CongIntro(a * p, 0, a, p);
    CongSub(a * p, 0, q * (a * k), q * 0, p);
    assert a * (q * k + r) == q * (a * k) + a * r;
  }

  /** A prime that divides a product divides a factor. */
  lemma Euclid(p: nat, a: int, z: int)
    requires Prime(p) && Cong(a * z, 0, p) && !Cong(a, 0, p)
    ensures Cong(z, 0, p)
  {
    hide Cong;
    var r := z % p;
    DivModOf(z, p);
    CongMod(z, p);
    if r == 0 {
      CongSym(r, z, p);
    } else {
      CongScale(r, z, a, p);
      CongTrans(a * r, a * z, 0, p);
      NoSmallZero(p, a, r);
    }
  }

  /** A factor that the prime p does not divide can be cancelled. */
  lemma CancelFactor(p: nat, a: int, x: int, y: int)
    requires Prime(p) && Cong(a * x, a * y, p) && !Cong(a, 0, p)
    ensures Cong(x, y, p)
  {
    hide Cong;
    CongIntro(a * y, a * y, 0, p);
    CongSub(a * x, a * y, a * y, a * y, p);
    assert a * x - a * y == a * (x - y) && a * y - a * y == 0;
    Euclid(p, a, x - y);
    CongIntro(y, y, 0, p);
    CongAdd(x - y, 0, y, y, p);
  }

  // ---- products over sets ----

  ghost function Product(s: set<int>): int {
    if s == {} then 1 else var x := Pick(s); x * Product(s - {x})
  }

  /** Some element of a non-empty set. */
  ghost function Pick(s: set<int>): (x: int)
    requires s != {}
    ensures x in s
  {
    EmptyOrNot(s);
    var x :| x in s; x
  }

  lemma EmptyOrNot(s: set<int>)
    ensures s == {} || exists x :: x in s
  {
    if !exists x :: x in s {
      assert s == {};
    }
  }

  /** The product does not depend on the order in which elements are taken. */
  lemma {:induction false} ProductOf(s: set<int>, y: int)
    requires y in s
    ensures Product(s) == y * Product(s - {y})
  {
    var x := Pick(s);
    if x != y {
      ProductOf(s - {x}, y);
      ProductOf(s - {y}, x);
      assert s - {x} - {y} == s - {y} - {x};
      Swap(x, y, Product(s - {x} - {y}));
    }
  }

  lemma Swap(x: int, y: int, z: int)
    ensures x * (y * z) == y * (x * z)
  {
  }

  ghost predicate Residues(s: set<int>, p: nat) {
    forall k | k in s :: 0 < k < p
  }

  ghost function Scaled(s: set<int>, a: int, p: nat): set<int>
    requires p > 0
  {
    set k | k in s :: (a * k) % p
  }

  lemma ScaledInjective(a: int, p: nat, x: int, y: int)
    requires Prime(p) && !Cong(a, 0, p) && 0 < x < p && 0 < y < p
    requires (a * x) % p == (a * y) % p
    ensures x == y
  {
    CancelFactor(p, a, x, y);
    CongSmall(x, y, p);
  }

  /** Multiplying every residue by a multiplies their product by a power of a, and loses none. */
  lemma {:induction false} ScaledProduct(s: set<int>, a: int, p: nat)
    requires Prime(p) && !Cong(a, 0, p) && Residues(s, p)
    ensures Cong(Product(Scaled(s, a, p)), Power(a, |s|) * Product(s), p)
    ensures |Scaled(s, a, p)| == |s|
  {
    hide Cong, Product, Power;
    if s == {} {
      EmptyProduct(a, p);
    } else {
      var x := Pick(s);
      var rest := s - {x};
      ScaledProduct(rest, a, p);
      ScaledSplit(s, x, a, p);
      var y := (a * x) % p;
      ProductOf(s, x);
      ProductOf(Scaled(s, a, p), y);
      CongMod(a * x, p);
      CongMul(y, a * x, Product(Scaled(rest, a, p)), Power(a, |rest|) * Product(rest), p);
      PowerNext(a, |rest|);
      Regroup(a, x, Power(a, |rest|), Product(rest));
    }
  }

  lemma EmptyProduct(a: int, p: nat)
    requires p > 0
    ensures Product({}) == 1 && Power(a, 0) == 1 && Scaled({}, a, p) == {} && Cong(1, 1 * 1, p)
  {
  }

  lemma PowerNext(a: int, e: nat)
    ensures Power(a, e + 1) == a * Power(a, e)
  {
  }

  lemma Regroup(a: int, x: int, e: int, r: int)
    ensures (a * x) * (e * r) == (a * e) * (x * r)
  {
  }

  lemma ScaledSplit(s: set<int>, x: int, a: int, p: nat)
    requires Prime(p) && !Cong(a, 0, p) && Residues(s, p) && x in s
    ensures (a * x) % p in Scaled(s, a, p)
    ensures Scaled(s, a, p) - {(a * x) % p} == Scaled(s - {x}, a, p)
  {
    hide Cong, Prime;
    var y := (a * x) % p;
    var left, right := Scaled(s, a, p) - {y}, Scaled(s - {x}, a, p);
    forall z | z in left
      ensures z in right
    {
      var k :| k in s && (a * k) % p == z;
      assert k in s - {x};
    }
    forall z | z in right
      ensures z in left
    {
      var k :| k in s - {x} && (a * k) % p == z;
      if z == y {
        ScaledInjective(a, p, k, x);
      }
    }
  }

  /** All residues of p, and how many there are. */
  lemma {:induction false} AllResidues(p: nat) returns (s: set<int>)
    requires p >= 1
    ensures forall k :: k in s <==> 0 < k < p
    ensures |s| == p - 1
  {
    if p == 1 {
      s := {};
    } else {
      var t := AllResidues(p - 1);
      s := t + {p - 1};
    }
  }

  lemma {:induction false} SameSizeSubset(s: set<int>, t: set<int>)
    requires s <= t && |s| == |t|
    ensures s == t
  {
    if s != {} {
      var x := Pick(s);
      SameSizeSubset(s - {x}, t - {x});
    }
  }

  lemma {:induction false} ProductNonZero(s: set<int>, p: nat)
    requires Prime(p) && Residues(s, p)
    ensures !Cong(Product(s), 0, p)
  {
    hide Cong, Product;
    if s == {} {
      OneNotZero(p);
    } else {
      var x := Pick(s);
      ProductOf(s, x);
      ProductNonZero(s - {x}, p);
      if Cong(Product(s), 0, p) {
        if Cong(x, 0, p) {
          CongSmall(x, 0, p);
        }
        Euclid(p, x, Product(s - {x}));
      }
    }
  }

  lemma OneNotZero(p: nat)
    requires Prime(p)
    ensures Product({}) == 1 && !Cong(1, 0, p)
  {
    if Cong(1, 0, p) {
      CongSmall(1, 0, p);
    }
  }

  /** For a prime p that does not divide a, a to the power p - 1 is 1 modulo p. */
  lemma LittleTheorem(p: nat, a: int)
    requires Prime(p) && !Cong(a, 0, p)
    ensures Cong(Power(a, p - 1), 1, p)
  {
    hide Cong, Product, Power;
    var s := AllResidues(p);
    ScaledProduct(s, a, p);
    ScaledStays(s, a, p);
    SameSizeSubset(Scaled(s, a, p), s);
    ProductNonZero(s, p);
    var q := Product(s);
    CongSym(q, Power(a, p - 1) * q, p);
    assert q * Power(a, p - 1) == Power(a, p - 1) * q && q * 1 == q;
    CancelFactor(p, q, Power(a, p - 1), 1);
  }

  lemma ScaledStays(s: set<int>, a: int, p: nat)
    requires Prime(p) && !Cong(a, 0, p) && forall k :: k in s <==> 0 < k < p
    ensures Scaled(s, a, p) <= s
  {
    forall k | k in s
      ensures 0 < (a * k) % p < p
    {
      NoSmallZero(p, a, k);
      DivModOf(a * k, p);
      CongZero(a * k, p);
    }
  }
}

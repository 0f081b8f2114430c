/** Permuted mixed-radix numbers: their values, and the cycle that incrementing runs through. */
module RadixArithmetic {

  function Product(rs: seq<nat>): nat {
    if rs == [] then 1 else rs[0] * Product(rs[1..])
  }

  /** The value of the digits, lowest order first. */
  function Value(ds: seq<nat>, rs: seq<nat>): nat
    requires |ds| == |rs|
  {
    if ds == [] then 0 else ds[0] + rs[0] * Value(ds[1..], rs[1..])
  }

  predicate InRange(ds: seq<nat>, rs: seq<nat>) {
    |ds| == |rs| && forall i :: 0 <= i < |ds| ==> ds[i] < rs[i]
  }

  function Quotient(v: nat, d: nat): nat
    requires d > 0
  {
    v / d
  }

  function Remainder(v: nat, d: nat): (r: nat)
    requires d > 0
    ensures r < d
  {
    v % d
  }

  function Digits(v: nat, rs: seq<nat>): (ds: seq<nat>)
    requires forall i :: 0 <= i < |rs| ==> rs[i] > 0
    ensures InRange(ds, rs)
    decreases |rs|
  {
    if rs == [] then [] else [Remainder(v, rs[0])] + Digits(Quotient(v, rs[0]), rs[1..])
  }

  predicate IsPermutation(p: seq<nat>) {
    && (forall i :: 0 <= i < |p| ==> p[i] < |p|)
    && (forall i, j :: 0 <= i < j < |p| ==> p[i] != p[j])
  }

  function Permute(s: seq<nat>, p: seq<nat>): (r: seq<nat>)
    requires |s| == |p| && IsPermutation(p)
    ensures |r| == |s| && forall i :: 0 <= i < |s| ==> r[i] == s[p[i]]
  {
    seq(|p|, i requires 0 <= i < |p| => s[p[i]])
  }

  /** The value of the number read in its permuted digit order. */
  function Position(ds: seq<nat>, rs: seq<nat>, p: seq<nat>): nat
    requires |ds| == |rs| == |p| && IsPermutation(p)
  {
    Value(Permute(ds, p), Permute(rs, p))
  }

  /** The digits after carrying into the digit that is i-th in the permuted order. */
  function IncrementFrom(ds: seq<nat>, rs: seq<nat>, p: seq<nat>, i: nat): (r: seq<nat>)
    requires |ds| == |rs| == |p| && IsPermutation(p) && i <= |p|
    ensures |r| == |ds|
    decreases |p| - i
  {
    if i == |p| then ds
    else if ds[p[i]] + 1 >= rs[p[i]] then IncrementFrom(ds[p[i] := 0], rs, p, i + 1)
    else ds[p[i] := ds[p[i]] + 1]
  }

  function Increment(ds: seq<nat>, rs: seq<nat>, p: seq<nat>): (r: seq<nat>)
    requires |ds| == |rs| == |p| && IsPermutation(p)
    ensures |r| == |ds|
  {
    IncrementFrom(ds, rs, p, 0)
  }

  function Iterate(ds: seq<nat>, rs: seq<nat>, p: seq<nat>, k: nat): (r: seq<nat>)
    requires |ds| == |rs| == |p| && IsPermutation(p)
    ensures |r| == |ds|
    decreases k
  {
    if k == 0 then ds else Increment(Iterate(ds, rs, p, k - 1), rs, p)
  }

  // ---------- The value is a bijection onto [0, product) ----------

  lemma {:induction false} ProductPositive(rs: seq<nat>)
    requires forall i :: 0 <= i < |rs| ==> rs[i] > 0
    ensures Product(rs) > 0
  {
    if rs != [] {
      ProductPositive(rs[1..]);
      assert rs[0] * Product(rs[1..]) > 0;
    }
  }

  lemma MulMonotone(a: nat, b: nat, c: nat)
    requires a <= b
    ensures c * a <= c * b
  {
  }

  lemma {:induction false} ValueBound(ds: seq<nat>, rs: seq<nat>)
    requires InRange(ds, rs)
    ensures Value(ds, rs) < Product(rs)
  {
    if ds != [] {
      ValueBound(ds[1..], rs[1..]);
      MulMonotone(Value(ds[1..], rs[1..]) + 1, Product(rs[1..]), rs[0]);
      assert rs[0] * (Value(ds[1..], rs[1..]) + 1) == rs[0] * Value(ds[1..], rs[1..]) + rs[0];
    }
  }

  lemma DivModOf(q: nat, r: nat, d: nat)
    requires r < d
    ensures (r + d * q) / d == q && (r + d * q) % d == r
  {
    var n := r + d * q;
    var e := n / d - q;
    assert d * e == r - n % d;
    MulAtLeast(d, e);
  }

  lemma MulAtLeast(d: nat, e: int)
    ensures e >= 1 ==> d * e >= d
    ensures e <= -1 ==> d * e + d <= 0
  {
  }

  lemma DivModBack(v: nat, d: nat, m: nat)
    requires d > 0
    ensures v == Remainder(v, d) + d * Quotient(v, d)
    ensures v < d * m ==> Quotient(v, d) < m
  {
    var q := Quotient(v, d);
    if q >= m {
      MulMonotone(m, q, d);
    }
  }

  lemma {:induction false} DigitsOfValue(ds: seq<nat>, rs: seq<nat>)
    requires InRange(ds, rs)
    ensures Digits(Value(ds, rs), rs) == ds
  {
    if ds != [] {
      DivModOf(Value(ds[1..], rs[1..]), ds[0], rs[0]);
      DigitsOfValue(ds[1..], rs[1..]);
    }
  }

  lemma {:induction false} ValueOfDigits(v: nat, rs: seq<nat>)
    requires (forall i :: 0 <= i < |rs| ==> rs[i] > 0) && v < Product(rs)
    ensures Value(Digits(v, rs), rs) == v
    decreases |rs|
  {
    if rs != [] {
      DivModBack(v, rs[0], Product(rs[1..]));
      ValueOfDigits(Quotient(v, rs[0]), rs[1..]);
    }
  }

  /** Distinct digit combinations have distinct values, and every value below the product occurs. */
  lemma ValueIsBijection(rs: seq<nat>)
    requires forall i :: 0 <= i < |rs| ==> rs[i] > 0
    ensures forall ds :: InRange(ds, rs) ==> Value(ds, rs) < Product(rs)
    ensures forall ds, es :: InRange(ds, rs) && InRange(es, rs) && Value(ds, rs) == Value(es, rs) ==> ds == es
    ensures forall v: nat :: v < Product(rs) ==> InRange(Digits(v, rs), rs) && Value(Digits(v, rs), rs) == v
  {
    forall ds | InRange(ds, rs)
      ensures Value(ds, rs) < Product(rs) && Digits(Value(ds, rs), rs) == ds
    {
      ValueBound(ds, rs);
      DigitsOfValue(ds, rs);
    }
    forall v: nat | v < Product(rs)
      ensures Value(Digits(v, rs), rs) == v
    {
      ValueOfDigits(v, rs);
    }
  }

  // ---------- Dropping digits ----------

  lemma {:induction false} ValueSplits(ds: seq<nat>, rs: seq<nat>, n: nat)
    requires |ds| == |rs| && n <= |ds|
    ensures Value(ds, rs) == Value(ds[..n], rs[..n]) + Product(rs[..n]) * Value(ds[n..], rs[n..])
  {
    if n > 0 {
      var (a, b) := (Value(ds[..n][1..], rs[..n][1..]), Product(rs[..n][1..]));
      ValueSplits(ds[1..], rs[1..], n - 1);
      assert ds[1..][..n - 1] == ds[..n][1..] && rs[1..][..n - 1] == rs[..n][1..];
      assert ds[1..][n - 1..] == ds[n..] && rs[1..][n - 1..] == rs[n..];
      Distribute(rs[0], a, b, Value(ds[n..], rs[n..]));
    }
  }

  lemma Distribute(r: nat, a: nat, b: nat, c: nat)
    ensures r * (a + b * c) == r * a + (r * b) * c
  {
    assert r * (b * c) == (r * b) * c;
  }

  /** The value after dropping n digits is the quotient by the product of their radixes. */
  lemma ParentIsQuotient(ds: seq<nat>, rs: seq<nat>, n: nat)
    requires InRange(ds, rs) && n <= |ds|
    ensures Product(rs[..n]) > 0
    ensures Value(ds[n..], rs[n..]) == Value(ds, rs) / Product(rs[..n])
  {
    ProductPositive(rs[..n]);
    ValueSplits(ds, rs, n);
    ValueBound(ds[..n], rs[..n]);
    DivModOf(Value(ds[n..], rs[n..]), Value(ds[..n], rs[..n]), Product(rs[..n]));
  }

  // ---------- The product does not depend on the permutation ----------

  function Elements(p: seq<nat>): (r: set<nat>)
    ensures forall x :: x in r <==> x in p
  {
    if p == [] then {} else {p[0]} + Elements(p[1..])
  }

  lemma {:induction false} ElementCount(p: seq<nat>)
    requires forall i, j :: 0 <= i < j < |p| ==> p[i] != p[j]
    ensures |Elements(p)| == |p|
  {
    if p != [] {
      ElementCount(p[1..]);
      assert p[0] !in p[1..];
    }
  }

  function Below(n: nat): (r: set<nat>)
    ensures forall x: nat :: x in r <==> x < n
    ensures |r| == n
  {
    if n == 0 then {} else Below(n - 1) + {n - 1}
  }

  lemma {:induction false} SameSizeSubset<T>(a: set<T>, b: set<T>)
    requires a <= b && |a| == |b|
    ensures a == b
  {
    if a != {} {
      var x :| x in a;
      SameSizeSubset(a - {x}, b - {x});
    }
  }

  lemma PermutationReaches(p: seq<nat>, v: nat) returns (k: nat)
    requires IsPermutation(p) && v < |p|
    ensures k < |p| && p[k] == v
  {
    ElementCount(p);
    SameSizeSubset(Elements(p), Below(|p|));
    assert v in Below(|p|);
    k :| k < |p| && p[k] == v;
  }

  lemma {:induction false} ProductConcat(a: seq<nat>, b: seq<nat>)
    ensures Product(a + b) == Product(a) * Product(b)
  {
    if a == [] {
      assert a + b == b;
    } else {
      assert (a + b)[1..] == a[1..] + b;
      ProductConcat(a[1..], b);
      assert a[0] * (Product(a[1..]) * Product(b)) == (a[0] * Product(a[1..])) * Product(b);
    }
  }

  lemma ProductSingle(x: nat)
    ensures Product([x]) == x
  {
  }

  lemma ProductInsert(a: seq<nat>, x: nat, b: seq<nat>)
    ensures Product((a + [x]) + b) == Product(a + b) * x
  {
    ProductConcat(a + [x], b);
    ProductConcat(a, [x]);
    ProductSingle(x);
    ProductConcat(a, b);
    Regroup(Product(a), x, Product(b));
  }

  lemma ProductExtract(s: seq<nat>, k: nat)
    requires k < |s|
    ensures Product(s) == Product(s[..k] + s[k + 1..]) * s[k]
  {
    assert s == (s[..k] + [s[k]]) + s[k + 1..];
    ProductInsert(s[..k], s[k], s[k + 1..]);
  }

  lemma Regroup(a: nat, b: nat, c: nat)
    ensures (a * b) * c == (a * c) * b
  {
  }

  lemma {:induction false} PermutedProduct(rs: seq<nat>, p: seq<nat>)
    requires |rs| == |p| && IsPermutation(p)
    ensures Product(Permute(rs, p)) == Product(rs)
  {
    if p != [] {
      var n := |p| - 1;
      var k := PermutationReaches(p, n);
      var q := p[..k] + p[k + 1..];
      assert IsPermutation(q);
      var s := Permute(rs, p);
      assert s[..k] + s[k + 1..] == Permute(rs[..n], q);
      ProductExtract(s, k);
      PermutedProduct(rs[..n], q);
      ProductExtract(rs, n);
      assert rs[..n] + rs[n + 1..] == rs[..n];
    } else {
      assert Permute(rs, p) == rs;
    }
  }

  // ---------- Incrementing ----------

  /** Increment with carry in digit order. */
  function Carry(ds: seq<nat>, rs: seq<nat>): (r: seq<nat>)
    requires |ds| == |rs|
    ensures |r| == |ds|
  {
    if ds == [] then []
    else if ds[0] + 1 >= rs[0] then [0] + Carry(ds[1..], rs[1..])
    else [ds[0] + 1] + ds[1..]
  }

  lemma CarryArithmetic(d: nat, r: nat, v: nat, m: nat)
    requires d < r && v < m
    ensures d + r * v < r * m
    ensures d + 1 == r && v + 1 == m ==> d + r * v + 1 == r * m
    ensures d + 1 == r ==> r * (v + 1) == d + r * v + 1
    ensures d + 1 < r || v + 1 < m ==> d + r * v + 1 < r * m
  {
    assert r * (v + 1) == r * v + r;
    MulMonotone(v + 1, m, r);
    if v + 1 < m {
      assert r * (v + 2) == r * v + 2 * r;
      MulMonotone(v + 2, m, r);
    }
  }

  lemma {:induction false} CarryAddsOne(ds: seq<nat>, rs: seq<nat>)
    requires InRange(ds, rs)
    ensures InRange(Carry(ds, rs), rs)
    ensures Value(Carry(ds, rs), rs) == if Value(ds, rs) + 1 == Product(rs) then 0 else Value(ds, rs) + 1
  {
    if ds != [] {
      CarryAddsOne(ds[1..], rs[1..]);
      ValueBound(ds[1..], rs[1..]);
      CarryArithmetic(ds[0], rs[0], Value(ds[1..], rs[1..]), Product(rs[1..]));
    }
  }

  lemma SharedPrefix(r: seq<nat>, q: seq<nat>, i: nat)
    requires i < |r| == |q| && r[..i + 1] == q[..i + 1]
    ensures r[..i] == q[..i] && r[i..] == [q[i]] + r[i + 1..]
  {
    assert r[..i] == r[..i + 1][..i] && q[..i] == q[..i + 1][..i];
    assert r[i] == r[..i + 1][i] && q[i] == q[..i + 1][i];
  }

  /** Carrying in permuted order is carrying in digit order on the permuted digits. */
  lemma {:induction false} IncrementIsCarry(ds: seq<nat>, rs: seq<nat>, p: seq<nat>, i: nat)
    requires |ds| == |rs| == |p| && IsPermutation(p) && i <= |p|
    ensures var r := Permute(IncrementFrom(ds, rs, p, i), p);
            && r[..i] == Permute(ds, p)[..i]
            && r[i..] == Carry(Permute(ds, p)[i..], Permute(rs, p)[i..])
    decreases |p| - i
  {
    var (pd, pr) := (Permute(ds, p), Permute(rs, p));
    if i < |p| {
      assert pd[i..][1..] == pd[i + 1..] && pr[i..][1..] == pr[i + 1..];
      if ds[p[i]] + 1 >= rs[p[i]] {
        var ds' := ds[p[i] := 0];
        IncrementIsCarry(ds', rs, p, i + 1);
        var pd' := Permute(ds', p);
        assert pd' == pd[i := 0];
        assert pd'[i + 1..] == pd[i + 1..];
        SharedPrefix(Permute(IncrementFrom(ds, rs, p, i), p), pd', i);
      } else {
        assert Permute(ds[p[i] := ds[p[i]] + 1], p) == pd[i := pd[i] + 1];
      }
    }
  }

  lemma UnpermutedRange(ds: seq<nat>, rs: seq<nat>, p: seq<nat>)
    requires |ds| == |rs| == |p| && IsPermutation(p)
    ensures InRange(ds, rs) <==> InRange(Permute(ds, p), Permute(rs, p))
  {
    forall i | 0 <= i < |p| && InRange(Permute(ds, p), Permute(rs, p))
      ensures ds[i] < rs[i]
    {
      var k := PermutationReaches(p, i);
      assert Permute(ds, p)[k] < Permute(rs, p)[k];
    }
  }

  /** One increment keeps the digits in range and moves to the next position, wrapping at the product. */
  lemma IncrementAdvances(ds: seq<nat>, rs: seq<nat>, p: seq<nat>)
    requires InRange(ds, rs) && |p| == |rs| && IsPermutation(p)
    ensures InRange(Increment(ds, rs, p), rs)
    ensures Position(ds, rs, p) < Product(rs)
    ensures Position(Increment(ds, rs, p), rs, p) ==
            if Position(ds, rs, p) + 1 == Product(rs) then 0 else Position(ds, rs, p) + 1
  {
    var r := Increment(ds, rs, p);
    var (pd, pr) := (Permute(ds, p), Permute(rs, p));
    UnpermutedRange(ds, rs, p);
    IncrementIsCarry(ds, rs, p, 0);
    assert pd[0..] == pd && pr[0..] == pr && Permute(r, p)[0..] == Permute(r, p);
    CarryAddsOne(pd, pr);
    ValueBound(pd, pr);
    PermutedProduct(rs, p);
    UnpermutedRange(r, rs, p);
  }

  lemma ModStep(a: nat, m: nat)
    requires m > 0
    ensures (a + 1) % m == if a % m + 1 == m then 0 else a % m + 1
  {
    var (q, r) := (a / m, a % m);
    assert a == r + m * q;
    if r + 1 == m {
      assert a + 1 == 0 + m * (q + 1);
      DivModOf(q + 1, 0, m);
    } else {
      DivModOf(q, r + 1, m);
    }
  }

  /** k increments move k positions round a cycle as long as the product of the radixes. */
  lemma {:induction false} IteratePosition(ds: seq<nat>, rs: seq<nat>, p: seq<nat>, k: nat)
    requires InRange(ds, rs) && |p| == |rs| && IsPermutation(p)
    ensures InRange(Iterate(ds, rs, p, k), rs) && Product(rs) > 0
    ensures Position(Iterate(ds, rs, p, k), rs, p) == (Position(ds, rs, p) + k) % Product(rs)
    decreases k
  {
    ProductPositive(rs);
    IncrementAdvances(ds, rs, p);
    if k == 0 {
      DivModOf(0, Position(ds, rs, p), Product(rs));
    } else {
      IteratePosition(ds, rs, p, k - 1);
      IncrementAdvances(Iterate(ds, rs, p, k - 1), rs, p);
      ModStep(Position(ds, rs, p) + k - 1, Product(rs));
    }
  }

  lemma PositionIsInjective(ds: seq<nat>, es: seq<nat>, rs: seq<nat>, p: seq<nat>)
    requires InRange(ds, rs) && InRange(es, rs) && |p| == |rs| && IsPermutation(p)
    requires Position(ds, rs, p) == Position(es, rs, p)
    ensures ds == es
  {
    UnpermutedRange(ds, rs, p);
    UnpermutedRange(es, rs, p);
    DigitsOfValue(Permute(ds, p), Permute(rs, p));
    DigitsOfValue(Permute(es, p), Permute(rs, p));
    forall i | 0 <= i < |p|
      ensures ds[i] == es[i]
    {
      var k := PermutationReaches(p, i);
      assert Permute(ds, p)[k] == Permute(es, p)[k];
    }
  }

  /** The number of increments below the product that leads from one position to another. */
  function StepsFrom(a: nat, b: nat, m: nat): (k: nat)
    requires a < m && b < m
    ensures k < m
  {
    if a <= b then b - a else b + m - a
  }

  lemma StepsFromUnique(a: nat, b: nat, m: nat, k: nat)
    requires a < m && b < m
    ensures (a + StepsFrom(a, b, m)) % m == b
    ensures k < m && (a + k) % m == b ==> k == StepsFrom(a, b, m)
  {
    DivModOf(if a <= b then 0 else 1, b, m);
    if k < m {
      if a + k < m {
        DivModOf(0, a + k, m);
      } else {
        DivModOf(1, a + k - m, m);
      }
    }
  }

  /** A number of increments below the product is known by where it leads. */
  lemma ReachedBySteps(ds: seq<nat>, rs: seq<nat>, p: seq<nat>, j: nat)
    requires InRange(ds, rs) && |p| == |rs| && IsPermutation(p) && j < Product(rs)
    ensures Position(ds, rs, p) < Product(rs) && Position(Iterate(ds, rs, p, j), rs, p) < Product(rs)
    ensures j == StepsFrom(Position(ds, rs, p), Position(Iterate(ds, rs, p, j), rs, p), Product(rs))
  {
    IncrementAdvances(ds, rs, p);
    IteratePosition(ds, rs, p, j);
    IncrementAdvances(Iterate(ds, rs, p, j), rs, p);
    StepsFromUnique(Position(ds, rs, p), Position(Iterate(ds, rs, p, j), rs, p), Product(rs), j);
  }

  /**
   * In one cycle, from any digits, every digit combination is reached by exactly one number of
   * increments below the product of the radixes.
   */
  lemma EachCombinationOnce(ds: seq<nat>, es: seq<nat>, rs: seq<nat>, p: seq<nat>)
    requires InRange(ds, rs) && InRange(es, rs) && |p| == |rs| && IsPermutation(p)
    ensures exists k: nat ::
              && k < Product(rs) && Iterate(ds, rs, p, k) == es
              && forall j: nat :: j < Product(rs) && Iterate(ds, rs, p, j) == es ==> j == k
  {
    var m := Product(rs);
    IncrementAdvances(ds, rs, p);
    IncrementAdvances(es, rs, p);
    var (a, b) := (Position(ds, rs, p), Position(es, rs, p));
    var k := StepsFrom(a, b, m);
    IteratePosition(ds, rs, p, k);
    StepsFromUnique(a, b, m, k);
    PositionIsInjective(Iterate(ds, rs, p, k), es, rs, p);
    forall j: nat | j < m && Iterate(ds, rs, p, j) == es
      ensures j == k
    {
      ReachedBySteps(ds, rs, p, j);
    }
  }

  /** Increments return to the start exactly at the multiples of the product, and first at the product. */
  lemma FullCycle(ds: seq<nat>, rs: seq<nat>, p: seq<nat>, k: nat)
    requires InRange(ds, rs) && |p| == |rs| && IsPermutation(p)
    ensures Product(rs) > 0
    ensures Iterate(ds, rs, p, k) == ds <==> k % Product(rs) == 0
    ensures 0 < k && Iterate(ds, rs, p, k) == ds ==> Product(rs) <= k
    ensures Iterate(ds, rs, p, Product(rs)) == ds
  {
    var m := Product(rs);
    IncrementAdvances(ds, rs, p);
    var a := Position(ds, rs, p);
    CycleReturns(ds, rs, p, k);
    CycleReturns(ds, rs, p, m);
    DivModOf(1, 0, m);
    if 0 < k < m {
      DivModOf(0, k, m);
    }
  }

  /** Digits 0, 0, 0 with radixes 2, 3, 4, incremented once in the order 1, 0, 2. */
  lemma DocumentedExample()
    ensures var (zero, rs, p) := ([0, 0, 0], [2, 3, 4], [1, 0, 2]);
            && IsPermutation(p) && Product(rs) == 24
            && Increment(zero, rs, p) == [0, 1, 0]
            && Value([0, 1, 0], rs) == 2 && Value([1, 0], [3, 4]) == 1
  {
    var (rs, p) := ([2, 3, 4], [1, 0, 2]);
    assert rs[1..] == [3, 4] && [3, 4][1..] == [4] && [4][1..] == [];
    assert [0, 1, 0][1..] == [1, 0] && [1, 0][1..] == [0] && [0][1..] == [];
    assert Product([4]) == 4 && Product([3, 4]) == 12;
    assert Value([0], [4]) == 0 && Value([1, 0], [3, 4]) == 1;
    assert IncrementFrom([0, 0, 0], rs, p, 0) == [0, 0, 0][1 := 1];
  }

  lemma CycleReturns(ds: seq<nat>, rs: seq<nat>, p: seq<nat>, k: nat)
    requires InRange(ds, rs) && |p| == |rs| && IsPermutation(p)
    ensures Product(rs) > 0 && (Iterate(ds, rs, p, k) == ds <==> k % Product(rs) == 0)
  {
    var m := Product(rs);
    IncrementAdvances(ds, rs, p);
    IteratePosition(ds, rs, p, k);
    var a := Position(ds, rs, p);
    AddMod(a, k, m);
    if (a + k) % m == a {
      PositionIsInjective(Iterate(ds, rs, p, k), ds, rs, p);
    }
  }

  lemma AddMod(a: nat, k: nat, m: nat)
    requires a < m
    ensures (a + k) % m == a <==> k % m == 0
  {
    var (q, r) := (k / m, k % m);
    assert a + k == (a + r) + m * q;
    if a + r < m {
      DivModOf(q, a + r, m);
    } else {
      assert a + k == (a + r - m) + m * (q + 1);
      DivModOf(q + 1, a + r - m, m);
    }
  }
}

/** The mixed-radix number of the runtime: arrays of digits, radixes and the increment order. */
module MixedRadix {
  import opened RadixArithmetic

  class MixedRadix {
    const digits: array<nat>
    const radixes: array<nat>
    const permutation: array<nat>

    /** The three arrays have one size, and every digit lies below its radix. */
    ghost predicate Valid()
      reads digits, radixes, permutation
    {
      && digits.Length == radixes.Length == permutation.Length
      && digits != radixes && digits != permutation
      && InRange(digits[..], radixes[..])
      && IsPermutation(permutation[..])
    }

    constructor (digits: array<nat>, radixes: array<nat>, permutation: array<nat>)
      requires digits.Length == radixes.Length == permutation.Length
      requires digits != radixes && digits != permutation
      requires InRange(digits[..], radixes[..]) && IsPermutation(permutation[..])
      ensures Valid()
      ensures this.digits == digits && this.radixes == radixes && this.permutation == permutation
    {
      this.digits, this.radixes, this.permutation := digits, radixes, permutation;
    }

    method Incr()
      requires Valid()
      modifies digits
      ensures Valid()
      ensures digits[..] == Increment(old(digits[..]), radixes[..], permutation[..])
    {
      ghost var (rs, p) := (radixes[..], permutation[..]);
      IncrementAdvances(digits[..], rs, p);
      ghost var goal := Increment(digits[..], rs, p);
      var i := 0;
      while i < permutation.Length
        invariant 0 <= i <= permutation.Length
        invariant IncrementFrom(digits[..], rs, p, i) == goal
        decreases permutation.Length - i
      {
        var d := permutation[i];
        ghost var before := digits[..];
        if digits[d] + 1 >= radixes[d] {
          digits[d] := 0;
          assert digits[..] == before[p[i] := 0];
          i := i + 1;
        } else {
          digits[d] := digits[d] + 1;
          assert digits[..] == before[p[i] := before[p[i]] + 1] == goal;
          return;
        }
      }
      assert digits[..] == goal;
    }

    /** The value after dropping the first n digits; 0 when there are no digits left. */
    method Parent(n: nat) returns (value: nat)
      requires Valid()
      ensures n <= digits.Length ==>
                && Product(radixes[..n]) > 0
                && value == Value(digits[..], radixes[..]) / Product(radixes[..n])
      ensures n >= digits.Length ==> value == 0
    {
      value := 0;
      ghost var (ds, rs) := (digits[..], radixes[..]);
      var i := digits.Length;
      ghost var low := if n < i then n else i;
      while i > n
        invariant low <= i <= digits.Length
        invariant value == Value(ds[i..], rs[i..])
      {
        i := i - 1;
        value := digits[i] + radixes[i] * value;
        assert ds[i..][1..] == ds[i + 1..] && rs[i..][1..] == rs[i + 1..];
      }
      if n <= digits.Length {
        ParentIsQuotient(ds, rs, n);
        assert rs[..n] == radixes[..n];
      }
    }

    method ToInt() returns (value: nat)
      requires Valid()
      ensures value == Value(digits[..], radixes[..]) < Product(radixes[..])
    {
      value := Parent(0);
      ValueBound(digits[..], radixes[..]);
      assert Product(radixes[..0]) == 1;
    }
  }
}

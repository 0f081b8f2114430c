/**
 * Open addressing over an entry array whose last slot is a sentinel that is never written:
 * what probing finds, and the map that any sequence of puts represents.
 */
module ProbeTable {
  import opened Options

  datatype Entry<K, V> = Entry(key: K, value: V)

  /** A table: its entries (capacity plus the sentinel), the unused key and the hash function. */
  datatype Table<!K(==), V> = Table(entries: seq<Entry<K, V>>, nothing: K, hash: K -> nat)
  {
    predicate Shape() {
      |entries| >= 2 && entries[|entries| - 1].key == nothing
    }

    function Capacity(): (c: nat)
      requires Shape()
      ensures 0 < c < |entries|
    {
      |entries| - 1
    }

    function Ideal(key: K): (a: nat)
      requires Shape()
      ensures a < Capacity()
    {
      hash(key) % Capacity()
    }

    predicate Occupied(a: nat)
      requires a < |entries|
    {
      entries[a].key != nothing
    }

    /** The cyclic path from one slot up to, not including, another. */
    predicate OnPath(from: nat, to: nat, i: nat) {
      if from <= to then from <= i < to else from <= i || i < to
    }

    predicate Full()
      requires Shape()
    {
      forall a: nat :: a < Capacity() ==> Occupied(a)
    }

    ghost predicate Valid() {
      && Shape()
      && (forall a: nat, b: nat :: a < b < Capacity() && Occupied(a) && Occupied(b) ==>
            entries[a].key != entries[b].key)
      && (forall a: nat, i: nat :: a < Capacity() && Occupied(a) && i < Capacity() && OnPath(Ideal(entries[a].key), a, i)
            ==> Occupied(i))
    }

    ghost predicate Represents(m: map<K, V>)
      requires Shape()
    {
      && nothing !in m
      && (forall a: nat :: a < Capacity() && Occupied(a) ==> entries[a].key in m && m[entries[a].key] == entries[a].value)
      && (forall k :: k in m ==> exists a: nat :: a < Capacity() && entries[a].key == k)
    }

    /** The first slot from `a` on that is empty or holds the key; the sentinel stops every scan. */
    function Scan(key: K, a: nat): (r: nat)
      requires Shape() && a <= Capacity()
      ensures a <= r <= Capacity()
      ensures entries[r].key == nothing || entries[r].key == key
      ensures forall i: nat :: a <= i < r ==> Occupied(i) && entries[i].key != key
      decreases |entries| - a
    {
      if entries[a].key != nothing && entries[a].key != key then Scan(key, a + 1) else a
    }

    /** Scan from the ideal slot, then from the start; None is the null address. */
    function Address(key: K): Option<nat>
      requires Shape()
    {
      var a := Scan(key, Ideal(key));
      if a < Capacity() then Some(a) else
      var b := Scan(key, 0);
      if b < Capacity() then Some(b) else None
    }

    function Write(a: nat, key: K, value: V): Table<K, V>
      requires a < |entries|
    {
      this.(entries := entries[a := Entry(key, value)])
    }

    lemma {:induction false} ScanStopsAt(key: K, a: nat, s: nat)
      requires Shape() && a <= s <= Capacity()
      requires entries[s].key == nothing || entries[s].key == key
      requires forall i: nat :: a <= i < s ==> Occupied(i) && entries[i].key != key
      ensures Scan(key, a) == s
      decreases s - a
    {
      if a < s {
        assert Occupied(a);
        ScanStopsAt(key, a + 1, s);
      }
    }

    lemma StoredKeyFound(key: K, s: nat)
      requires Valid() && key != nothing && s < Capacity() && entries[s].key == key
      ensures Address(key) == Some(s)
      ensures forall i: nat :: i < Capacity() && OnPath(Ideal(key), s, i) ==> Occupied(i)
    {
      var from := Ideal(key);
      assert Occupied(s);
      forall i: nat | i < Capacity() && OnPath(from, s, i)
        ensures Occupied(i) && entries[i].key != key
      {
      }
      if from <= s {
        ScanStopsAt(key, from, s);
      } else {
        ScanStopsAt(key, from, Capacity());
        ScanStopsAt(key, 0, s);
      }
    }

    lemma AbsentKeyProbe(key: K)
      requires Valid() && key != nothing
      requires forall a: nat :: a < Capacity() ==> entries[a].key != key
      ensures Address(key).None? <==> Full()
      ensures Address(key).Some? ==>
                && Address(key).value < Capacity() && !Occupied(Address(key).value)
                && forall i: nat :: i < Capacity() && OnPath(Ideal(key), Address(key).value, i) ==> Occupied(i)
    {
      var from := Ideal(key);
      var a := Scan(key, from);
      if a < Capacity() {
        assert !Occupied(a);
      } else {
        var b := Scan(key, 0);
        if b < Capacity() {
          assert !Occupied(b);
        }
      }
    }

    /** Probing finds the key where it is stored, else an empty slot, and fails only on a full table. */
    lemma AddressFinds(key: K, m: map<K, V>)
      requires Valid() && Represents(m) && key != nothing
      ensures Address(key).None? <==> key !in m && Full()
      ensures Address(key).Some? ==>
                && Address(key).value < Capacity()
                && (if key in m then entries[Address(key).value] == Entry(key, m[key]) else !Occupied(Address(key).value))
                && forall i: nat :: i < Capacity() && OnPath(Ideal(key), Address(key).value, i) ==> Occupied(i)
    {
      if key in m {
        var s: nat :| s < Capacity() && entries[s].key == key;
        assert Occupied(s);
        StoredKeyFound(key, s);
      } else {
        assert forall a: nat :: a < Capacity() && Occupied(a) ==> entries[a].key != key;
        AbsentKeyProbe(key);
      }
    }

    lemma WriteValid(key: K, value: V, m: map<K, V>)
      requires Valid() && Represents(m) && key != nothing && Address(key).Some?
      ensures Address(key).value < Capacity()
      ensures Write(Address(key).value, key, value).Valid()
    {
      AddressFinds(key, m);
      var s := Address(key).value;
      var t := Write(s, key, value);
      assert t.Shape();
      forall a: nat, b: nat | a < b < Capacity() && t.Occupied(a) && t.Occupied(b)
        ensures t.entries[a].key != t.entries[b].key
      {
        if b == s && Occupied(a) && key !in m {
          assert entries[a].key in m;
        }
        if a == s && Occupied(b) && key !in m {
          assert entries[b].key in m;
        }
      }
    }

    /** Writing where probing points keeps the table valid and updates the map at that key alone. */
    lemma WriteRefines(key: K, value: V, m: map<K, V>)
      requires Valid() && Represents(m) && key != nothing && Address(key).Some?
      ensures Address(key).value < Capacity()
      ensures var t := Write(Address(key).value, key, value);
              && t.Valid() && t.Represents(m[key := value]) && t.Capacity() == Capacity()
    {
      AddressFinds(key, m);
      WriteValid(key, value, m);
      var s := Address(key).value;
      var t := Write(s, key, value);
      var m' := m[key := value];
      forall k | k in m'
        ensures exists a: nat :: a < Capacity() && t.entries[a].key == k
      {
        if k == key {
          assert t.entries[s].key == k;
        } else {
          var a: nat :| a < Capacity() && entries[a].key == k;
          assert Occupied(a) && a != s;
          assert t.entries[a].key == k;
        }
      }
      forall a: nat | a < Capacity() && t.Occupied(a)
        ensures t.entries[a].key in m' && m'[t.entries[a].key] == t.entries[a].value
      {
        if a != s {
          assert Occupied(a);
          assert entries[a].key != key by {
            if key in m {
              assert Occupied(s) && entries[s].key == key;
            }
          }
        }
      }
    }

    // ---------- Sizes ----------

    function KeysBelow(n: nat): set<K>
      requires n <= |entries|
    {
      if n == 0 then {} else if Occupied(n - 1) then KeysBelow(n - 1) + {entries[n - 1].key} else KeysBelow(n - 1)
    }

    predicate FullBelow(n: nat)
      requires n <= |entries|
    {
      forall a: nat :: a < n ==> Occupied(a)
    }

    lemma {:induction false} KeysBelowMember(n: nat, k: K)
      requires n <= |entries|
      ensures k in KeysBelow(n) <==> exists a: nat :: a < n && Occupied(a) && entries[a].key == k
    {
      if n > 0 {
        KeysBelowMember(n - 1, k);
      }
    }

    lemma {:induction false} KeysBelowSize(n: nat)
      requires Valid() && n <= Capacity()
      ensures |KeysBelow(n)| <= n
      ensures |KeysBelow(n)| == n <==> FullBelow(n)
    {
      if n > 0 {
        KeysBelowSize(n - 1);
        if Occupied(n - 1) {
          var k := entries[n - 1].key;
          KeysBelowMember(n - 1, k);
          assert k !in KeysBelow(n - 1);
          assert FullBelow(n) <==> FullBelow(n - 1);
        } else {
          assert !FullBelow(n);
        }
      }
    }

    /** The map never outgrows the table, and fills it exactly when every slot is occupied. */
    lemma RepresentedSize(m: map<K, V>)
      requires Valid() && Represents(m)
      ensures |m| <= Capacity()
      ensures |m| == Capacity() <==> Full()
    {
      var n := Capacity();
      var keys := KeysBelow(n);
      forall k | k in m.Keys
        ensures k in keys
      {
        var a: nat :| a < n && entries[a].key == k;
        assert Occupied(a);
        KeysBelowMember(n, k);
      }
      forall k | k in keys
        ensures k in m.Keys
      {
        KeysBelowMember(n, k);
      }
      assert m.Keys == keys;
      KeysBelowSize(n);
      assert Full() <==> FullBelow(n);
    }
  }

  // ---------- Sequences of puts ----------

  /** The table after a sequence of puts, or None where the program would write through NULL. */
  function PutAll<K(==), V>(t: Table<K, V>, puts: seq<(K, V)>): Option<Table<K, V>>
    requires t.Shape()
    decreases |puts|
  {
    if puts == [] then Some(t) else
    var a := t.Address(puts[0].0);
    if a.None? || puts[0].0 == t.nothing then None
    else PutAll(t.Write(a.value, puts[0].0, puts[0].1), puts[1..])
  }

  function ApplyAll<K(==), V>(m: map<K, V>, puts: seq<(K, V)>): map<K, V>
    decreases |puts|
  {
    if puts == [] then m else ApplyAll(m[puts[0].0 := puts[0].1], puts[1..])
  }

  lemma {:induction false} ApplyAllGrows<K, V>(m: map<K, V>, puts: seq<(K, V)>)
    ensures m.Keys <= ApplyAll(m, puts).Keys
    ensures |m| <= |ApplyAll(m, puts)|
    decreases |puts|
  {
    if puts != [] {
      var m' := m[puts[0].0 := puts[0].1];
      ApplyAllGrows(m', puts[1..]);
    }
    SubsetSize(m.Keys, ApplyAll(m, puts).Keys);
  }

  lemma {:induction false} SubsetSize<T>(a: set<T>, b: set<T>)
    requires a <= b
    ensures |a| <= |b|
  {
    if a != {} {
      var x :| x in a;
      SubsetSize(a - {x}, b - {x});
    }
  }

  /**
   * Puts succeed exactly as long as the distinct keys fit the capacity, and the table then
   * represents the map that the same puts build.
   */
  lemma {:induction false} PutAllRefines<K, V>(t: Table<K, V>, m: map<K, V>, puts: seq<(K, V)>)
    requires t.Valid() && t.Represents(m)
    requires forall p :: p in puts ==> p.0 != t.nothing
    ensures PutAll(t, puts).Some? <==> |ApplyAll(m, puts)| <= t.Capacity()
    ensures PutAll(t, puts).Some? ==>
              var t' := PutAll(t, puts).value;
              t'.Valid() && t'.Represents(ApplyAll(m, puts)) && t'.Capacity() == t.Capacity()
    decreases |puts|
  {
    t.RepresentedSize(m);
    if puts != [] {
      var (k, v) := puts[0];
      assert puts[0] in puts;
      t.AddressFinds(k, m);
      if t.Address(k).Some? {
        t.WriteRefines(k, v, m);
        PutAllRefines(t.Write(t.Address(k).value, k, v), m[k := v], puts[1..]);
      } else {
        assert m[k := v].Keys == m.Keys + {k};
        ApplyAllGrows(m[k := v], puts[1..]);
      }
    }
  }

  /** After the puts, the last value put under each key is what probing leads to. */
  lemma LastPutWins<K, V>(t: Table<K, V>, puts: seq<(K, V)>, j: nat)
    requires t.Valid() && t.Represents(map[])
    requires (forall p :: p in puts ==> p.0 != t.nothing) && PutAll(t, puts).Some?
    requires j < |puts| && forall i :: j < i < |puts| ==> puts[i].0 != puts[j].0
    ensures var t' := PutAll(t, puts).value;
            && t'.Shape() && t'.Address(puts[j].0).Some? && t'.Address(puts[j].0).value < t'.Capacity()
            && t'.entries[t'.Address(puts[j].0).value] == Entry(puts[j].0, puts[j].1)
  {
    PutAllRefines(t, map[], puts);
    ApplyAllLast(map[], puts, j);
    assert puts[j] in puts;
    NothingStays(t, puts);
    PutAll(t, puts).value.AddressFinds(puts[j].0, ApplyAll(map[], puts));
  }

  lemma {:induction false} NothingStays<K, V>(t: Table<K, V>, puts: seq<(K, V)>)
    requires t.Shape() && PutAll(t, puts).Some?
    ensures PutAll(t, puts).value.nothing == t.nothing
    decreases |puts|
  {
    if puts != [] {
      NothingStays(t.Write(t.Address(puts[0].0).value, puts[0].0, puts[0].1), puts[1..]);
    }
  }

  lemma {:induction false} ApplyAllLast<K, V>(m: map<K, V>, puts: seq<(K, V)>, j: nat)
    requires j < |puts| && forall i :: j < i < |puts| ==> puts[i].0 != puts[j].0
    ensures puts[j].0 in ApplyAll(m, puts) && ApplyAll(m, puts)[puts[j].0] == puts[j].1
    decreases |puts|
  {
    var m' := m[puts[0].0 := puts[0].1];
    if j > 0 {
      ApplyAllLast(m', puts[1..], j - 1);
    } else {
      UntouchedKey(m', puts[1..], puts[0].0);
    }
  }

  lemma {:induction false} UntouchedKey<K, V>(m: map<K, V>, puts: seq<(K, V)>, k: K)
    requires k in m && forall p :: p in puts ==> p.0 != k
    ensures k in ApplyAll(m, puts) && ApplyAll(m, puts)[k] == m[k]
    decreases |puts|
  {
    if puts != [] {
      assert puts[0] in puts;
      UntouchedKey(m[puts[0].0 := puts[0].1], puts[1..], k);
    }
  }
}

/** The non-resizing hashmap: an entry array probed in place, with a sentinel after the last slot. */
module Hashmap {
  import opened Options
  import opened ProbeTable

  class Hashmap<!K(0,==), V(0)> {
    var entries: array<Entry<K, V>>
    const capacity: nat
    var numEntries: nat  // set to zero on creation and never updated
    const nothing: K
    const hash: K -> nat
    ghost var contents: map<K, V>

    ghost function Abstract(): Table<K, V>
      reads this, entries
    {
      Table(entries[..], nothing, hash)
    }

    ghost predicate Valid()
      reads this, entries
    {
      && entries.Length == capacity + 1
      && Abstract().Valid()
      && Abstract().Represents(contents)
    }

    constructor (capacity: nat, nothing: K, hash: K -> nat)
      requires capacity > 0
      ensures Valid() && fresh(entries) && contents == map[]
      ensures entries.Length == capacity + 1 && forall i :: 0 <= i < entries.Length ==> entries[i].key == nothing
      ensures this.capacity == capacity && this.nothing == nothing && this.hash == hash && numEntries == 0
    {
      var fill := new Entry<K, V>[capacity + 1];
      for i := 0 to capacity + 1
        invariant forall j :: 0 <= j < i ==> fill[j].key == nothing
      {
        fill[i] := fill[i].(key := nothing);
      }
      entries, numEntries, contents := fill, 0, map[];
      this.capacity, this.nothing, this.hash := capacity, nothing, hash;
    }

    method GetIdealAddress(key: K) returns (address: nat)
      requires Abstract().Shape() && capacity + 1 == entries.Length
      ensures address < capacity && address == hash(key) % capacity == Abstract().Ideal(key)
    {
      address := hash(key) % capacity;
    }

    /** The slot of the key, or the empty slot to put it in; None when there is neither. */
    method GetActualAddress(key: K) returns (address: Option<nat>)
      requires Abstract().Shape() && capacity + 1 == entries.Length
      ensures address == Abstract().Address(key)
      ensures address.Some? ==>
                && address.value < capacity
                && (entries[address.value].key == key || entries[address.value].key == nothing)
                && forall i :: (if hash(key) % capacity <= address.value
                                then hash(key) % capacity <= i < address.value
                                else 0 <= i < address.value || hash(key) % capacity <= i < capacity) ==>
                     entries[i].key != key && entries[i].key != nothing
      ensures address.None? ==> forall i :: 0 <= i < capacity ==> entries[i].key != key && entries[i].key != nothing
    {
      ghost var t := Abstract();
      var a := GetIdealAddress(key);
      ghost var first := t.Scan(key, a);
      while entries[a].key != nothing && entries[a].key != key
        invariant a <= first <= capacity && t.Scan(key, a) == first
        decreases capacity - a
      {
        a := a + 1;
      }
      if a == capacity {
        a := 0;
        ghost var second := t.Scan(key, 0);
        while entries[a].key != nothing && entries[a].key != key
          invariant a <= second <= capacity && t.Scan(key, a) == second
          decreases capacity - a
        {
          a := a + 1;
        }
        if a == capacity {
          return None;
        }
      }
      address := Some(a);
    }

    /** What the address means: it is None only for a new key in a full map. */
    lemma AddressMeaning(key: K)
      requires Valid() && key != nothing
      ensures var address := Abstract().Address(key);
              && (address.None? <==> key !in contents && |contents| == capacity)
              && (address.Some? ==>
                    && address.value < capacity
                    && (key in contents ==> entries[address.value] == Entry(key, contents[key]))
                    && (key !in contents ==> entries[address.value].key == nothing))
    {
      Abstract().AddressFinds(key, contents);
      Abstract().RepresentedSize(contents);
    }

    /** A put of a new key into a full map would write through the null address. */
    method Put(key: K, value: V)
      requires Valid() && key != nothing
      requires key in contents || |contents| < capacity
      modifies this`contents, entries
      ensures Valid() && contents == old(contents)[key := value]
      ensures entries[capacity] == old(entries[capacity])
    {
      ghost var before := Abstract();
      AddressMeaning(key);
      var address := GetActualAddress(key);
      before.WriteRefines(key, value, contents);
      entries[address.value] := Entry(key, value);
      contents := contents[key := value];
      assert Abstract() == before.Write(address.value, key, value);
    }

    /**
     * The value last put under the key. For an absent key the null address is read, crashing, only
     * when the map is full; otherwise the value is whatever an empty slot holds.
     */
    method Get(key: K) returns (value: Option<V>)
      requires Valid() && key != nothing
      ensures key in contents ==> value == Some(contents[key])
      ensures value.None? <==> key !in contents && |contents| == capacity
    {
      AddressMeaning(key);
      var address := GetActualAddress(key);
      value := if address.None? then None else Some(entries[address.value].value);
    }
  }
}

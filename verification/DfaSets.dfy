/** The hash table m_dfa_sets, whose keys are the sets of NFA nodes as SparseBitSets. */
module DfaSets {
  import opened Basics
  import opened SparseBits

  ghost function SetOf(b: SparseBitSet): iset<int>
    requires b.Valid()
    reads b, b.offs, b.bits
  {
    iset x: int | b.Has(x)
  }

  /** The test of a hash table: hash codes first, then equals. */
  method SameKey(a: SparseBitSet, b: SparseBitSet) returns (same: bool)
    requires a.Valid() && b.Valid()
    ensures same <==> SetOf(a) == SetOf(b)
  {
    var hash := HashCode(a);
    var hash' := HashCode(b);
    if hash != hash' {
      Different(a, b, hash, hash');
      return false;
    }
    same := Equals(a, b);
    assert forall x: int :: (x in SetOf(a) <==> a.Has(x)) && (x in SetOf(b) <==> b.Has(x));
  }

  /** Different hash codes, different sets. */
  lemma {:induction false} Different(a: SparseBitSet, b: SparseBitSet, hash: int, hash': int)
    requires a.Valid() && b.Valid() && hash != hash'
    requires hash == Fold(Mix(a.offs[..a.size], a.bits[..a.size]))
    requires hash' == Fold(Mix(b.offs[..b.size], b.bits[..b.size]))
    ensures SetOf(a) != SetOf(b)
  {
    if SetOf(a) == SetOf(b) {
      forall x: int ensures a.Has(x) <==> b.Has(x) {
        assert x in SetOf(a) <==> x in SetOf(b);
      }
      KeysAgree(a, b);
    }
  }

  datatype Entry = Entry(key: SparseBitSet, value: nat)

  class Hashtable {
    var entries: seq<Entry>
    /** The keys and their arrays, and the sets they stand for. */
    ghost var repr: set<object>
    ghost var sets: seq<iset<int>>

    ghost predicate KeyOk(key: SparseBitSet, s: iset<int>)
      reads this, repr
    {
      key in repr && key.offs in repr && key.bits in repr && key.Valid() && SetOf(key) == s
    }

    /** No set is registered twice. */
    ghost predicate Valid()
      reads this, repr
    {
      && this !in repr && |sets| == |entries|
      && (forall k :: 0 <= k < |entries| ==> KeyOk(entries[k].key, sets[k]))
      && forall j, k :: 0 <= j < k < |entries| ==> sets[j] != sets[k]
    }

    constructor ()
      ensures Valid() && entries == [] && sets == [] && repr == {}
    {
      entries, sets, repr := [], [], {};
    }

    /** Where a set is registered. */
    method Find(key: SparseBitSet) returns (k: nat)
      requires Valid() && key.Valid()
      ensures k <= |entries| && (k < |entries| ==> sets[k] == SetOf(key))
      ensures k == |entries| ==> SetOf(key) !in sets
    {
      k := 0;
      while k < |entries|
        invariant k <= |entries| && SetOf(key) !in sets[..k]
      {
        assert KeyOk(entries[k].key, sets[k]);
        var same := SameKey(entries[k].key, key);
        if same {
          return;
        }
        assert sets[..k + 1] == sets[..k] + [sets[k]];
        k := k + 1;
      }
      assert sets[..k] == sets;
    }

    /** get: the value under which the set is registered, and nothing exactly if it is not. */
    method Get(key: SparseBitSet) returns (r: Option<nat>)
      requires Valid() && key.Valid()
      ensures r.None? <==> SetOf(key) !in sets
      ensures forall k :: 0 <= k < |entries| && sets[k] == SetOf(key) ==> r == Some(entries[k].value)
    {
      var k := Find(key);
      r := if k < |entries| then Some(entries[k].value) else None;
      assert k < |entries| ==> sets[k] in sets;
    }

    /** put: registers the set under a new value, and changes no other. */
    method Put(key: SparseBitSet, value: nat) returns (ghost k: nat)
      requires Valid() && key.Valid() && this !in {key as object, key.offs, key.bits}
      modifies this
      ensures Valid() && repr == old(repr) + {key, key.offs, key.bits}
      ensures k < |entries| && sets[k] == SetOf(key) && entries[k].value == value
      ensures if k < |old(entries)| then sets == old(sets) &&
                entries == old(entries)[k := Entry(old(entries)[k].key, value)]
              else sets == old(sets) + [SetOf(key)] && entries == old(entries) + [Entry(key, value)]
    {
      var i := Find(key);
      k := i;
      var before := entries;
      repr := repr + {key, key.offs, key.bits};
      if i < |entries| {
        entries := entries[i := Entry(entries[i].key, value)];
      } else {
        entries := entries + [Entry(key, value)];
        sets := sets + [SetOf(key)];
      }
      forall j | 0 <= j < |before| ensures KeyOk(entries[j].key, sets[j]) {
        assert old(KeyOk(entries[j].key, sets[j])) && entries[j].key == before[j].key;
      }
    }
  }
}

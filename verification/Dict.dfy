/** The string dictionary: a slot table with cached hashes that refines a map. */
module Dict {
  import opened Options

  const INITIAL_SIZE: nat := 128

  // ---------------------------------------------------------------- hash

  /** What widening a signed char to an unsigned int gives. */
  function SignExtended(c: char): (w: nat)
    ensures w < 0x1_0000_0000
  {
    var b := c as int % 256;
    if b < 128 then b else b + 0xffff_ff00
  }

  function Widen(c: char): bv32 {
    SignExtended(c) as bv32
  }

  function HashStep(h: bv32, c: char): bv32 {
    var h1 := h + Widen(c);
    var h2 := h1 + (h1 << 10);
    h2 ^ (h2 >> 6)
  }

  function HashSteps(key: string): bv32 {
    if key == "" then 0 else HashStep(HashSteps(key[..|key| - 1]), key[|key| - 1])
  }

  function HashEnd(h: bv32): bv32 {
    var h1 := h + (h << 3);
    var h2 := h1 ^ (h1 >> 11);
    h2 + (h2 << 15)
  }

  function Hash(key: string): bv32 {
    HashEnd(HashSteps(key))
  }

  /** The hash of the empty key, of a plain character and of one whose byte is negative. */
  lemma {:induction false} KnownHashes()
    ensures Hash("") == 0 && Hash("a") == 0xca2e9442 && Hash([233 as char]) == 0x409848ff
  {
    KnownSteps();
    assert HashSteps("") == 0;
    OneStep('a');
    OneStep(233 as char);
    hide HashStep, HashSteps, Widen;
  }

  lemma {:induction false} OneStep(c: char)
    ensures HashSteps([c]) == HashStep(0, c)
  {
    hide HashStep;
    assert [c][..0] == [];
  }

  lemma {:induction false} KnownSteps()
    ensures HashStep(0, 'a') == 0x00018270 && HashStep(0, 233 as char) == 0xfc005d66
  {
    WidenedPlain();
    WidenedNegative();
    Mixed();
    hide Widen;
  }

  lemma {:induction false} Extended()
    ensures SignExtended('a') == 0x61 && SignExtended(233 as char) == 0xffff_ffe9
  {
  }

  lemma {:induction false} WidenedTo(c: char, w: nat)
    requires SignExtended(c) == w && w < 0x1_0000_0000
    ensures Widen(c) == w as bv32
  {
    hide SignExtended;
  }

  lemma {:induction false} WidenedPlain()
    ensures Widen('a') == 0x61
  {
    Extended();
    WidenedTo('a', 0x61);
    hide SignExtended, Widen;
  }

  lemma {:induction false} WidenedNegative()
    ensures Widen(233 as char) == 0xffff_ffe9
  {
    Extended();
    WidenedTo(233 as char, 0xffff_ffe9);
    hide SignExtended, Widen;
  }

  lemma {:induction false} Mixed()
    ensures var h1: bv32 := 0 + 0x61; var h2 := h1 + (h1 << 10); h2 ^ (h2 >> 6) == 0x00018270
    ensures var h1: bv32 := 0 + 0xffff_ffe9; var h2 := h1 + (h1 << 10); h2 ^ (h2 >> 6) == 0xfc005d66
  {
  }

  method ComputeHash(key: string) returns (hash: bv32)
    ensures hash == Hash(key)
  {
    hide HashStep, HashEnd;
    hash := 0;
    for i := 0 to |key|
      invariant hash == HashSteps(key[..i])
    {
      assert key[..i + 1][..i] == key[..i];
      hash := HashStep(hash, key[i]);
    }
    assert key[..|key|] == key;
    hash := HashEnd(hash);
  }

  // ---------------------------------------------------------------- slots as a map

  type Slots = seq<Option<string>>

  function Occupied(keys: Slots): (n: nat)
    ensures n <= |keys|
  {
    if keys == [] then 0 else Occupied(keys[..|keys| - 1]) + if keys[|keys| - 1].Some? then 1 else 0
  }

  lemma {:induction false} OccupiedUpdate(keys: Slots, i: nat, k: Option<string>)
    requires i < |keys|
    ensures Occupied(keys[i := k]) ==
            Occupied(keys) - (if keys[i].Some? then 1 else 0) + if k.Some? then 1 else 0
  {
    var n := |keys| - 1;
    if i == n {
      assert keys[i := k][..n] == keys[..n];
    } else {
      assert keys[i := k][..n] == keys[..n][i := k];
      OccupiedUpdate(keys[..n], i, k);
    }
  }

  /** A table that is not full has a free slot. */
  lemma {:induction false} FreeSlot(keys: Slots) returns (f: nat)
    requires Occupied(keys) < |keys|
    ensures f < |keys| && keys[f].None?
  {
    var n := |keys| - 1;
    if keys[n].None? {
      f := n;
    } else {
      f := FreeSlot(keys[..n]);
    }
  }

  lemma {:induction false} NoneOccupied(keys: Slots)
    requires Occupied(keys) == 0
    ensures forall i :: 0 <= i < |keys| ==> keys[i].None?
  {
    if keys != [] {
      var n := |keys| - 1;
      NoneOccupied(keys[..n]);
      forall i | 0 <= i < |keys|
        ensures keys[i].None?
      {
        if i < n { assert keys[i] == keys[..n][i]; }
      }
    }
  }

  lemma {:induction false} OccupiedGrow(keys: Slots, extra: nat)
    ensures Occupied(keys + seq(extra, _ => None)) == Occupied(keys)
  {
    var grown := keys + seq(extra, _ => None);
    if extra == 0 {
      assert grown == keys;
    } else {
      assert grown[..|grown| - 1] == keys + seq(extra - 1, _ => None);
      OccupiedGrow(keys, extra - 1);
    }
  }

  predicate Unique(keys: Slots) {
    forall i, j :: 0 <= i < j < |keys| && keys[i].Some? ==> keys[i] != keys[j]
  }

  predicate Filled(keys: Slots, vals: Slots) {
    |keys| == |vals| && forall i :: 0 <= i < |keys| && keys[i].Some? ==> vals[i].Some?
  }

  function Contents(keys: Slots, vals: Slots): map<string, string>
    requires Filled(keys, vals)
  {
    if keys == [] then map[]
    else
      var n := |keys| - 1;
      var m := Contents(keys[..n], vals[..n]);
      if keys[n].Some? then m[keys[n].value := vals[n].value] else m
  }

  /** With unique keys the map is read off slot by slot. */
  lemma {:induction false} ContentsIs(keys: Slots, vals: Slots)
    requires Filled(keys, vals) && Unique(keys)
    ensures forall k :: k in Contents(keys, vals) <==> Some(k) in keys
    ensures forall i :: 0 <= i < |keys| && keys[i].Some? ==>
              keys[i].value in Contents(keys, vals) && Contents(keys, vals)[keys[i].value] == vals[i].value
  {
    if keys != [] {
      var n := |keys| - 1;
      ContentsIs(keys[..n], vals[..n]);
      assert keys == keys[..n] + [keys[n]];
      forall i | 0 <= i < |keys| && keys[i].Some?
        ensures keys[i].value in Contents(keys, vals) && Contents(keys, vals)[keys[i].value] == vals[i].value
      {
        if i < n {
          assert keys[..n][i] == keys[i] && keys[i] != keys[n];
        }
      }
    }
  }

  /** A slot's key or nothing new stands in the changed table. */
  lemma {:induction false} SlotKeys(keys: Slots, i: nat, k: Option<string>)
    requires Unique(keys) && i < |keys| && (k.Some? ==> keys[i] == k || k !in keys)
    ensures Unique(keys[i := k])
    ensures forall x :: Some(x) in keys[i := k] <==> Some(x) == k || (Some(x) in keys && Some(x) != keys[i])
  {
    var keys' := keys[i := k];
    assert forall j :: 0 <= j < |keys| && j != i ==> keys'[j] == keys[j];
    forall x
      ensures Some(x) in keys' <==> Some(x) == k || (Some(x) in keys && Some(x) != keys[i])
    {
      if Some(x) in keys' {
        var j :| 0 <= j < |keys| && keys'[j] == Some(x);
        assert j != i ==> keys[j] == Some(x);
      }
      if Some(x) == k {
        assert keys'[i] == Some(x);
      }
      if Some(x) in keys && Some(x) != keys[i] {
        var j :| 0 <= j < |keys| && keys[j] == Some(x);
        assert keys'[j] == Some(x);
      }
    }
  }

  /** Writing a slot that holds k, or a free one when no slot does, sets k in the map. */
  lemma {:induction false} SetSlot(keys: Slots, vals: Slots, i: nat, k: string, v: string)
    requires Filled(keys, vals) && Unique(keys) && i < |keys|
    requires keys[i] == Some(k) || (keys[i].None? && Some(k) !in keys)
    ensures Filled(keys[i := Some(k)], vals[i := Some(v)]) && Unique(keys[i := Some(k)])
    ensures Contents(keys[i := Some(k)], vals[i := Some(v)]) == Contents(keys, vals)[k := v]
  {
    var keys', vals' := keys[i := Some(k)], vals[i := Some(v)];
    SlotKeys(keys, i, Some(k));
    ContentsIs(keys, vals);
    ContentsIs(keys', vals');
    hide Contents, Unique;
    var m, m' := Contents(keys, vals)[k := v], Contents(keys', vals');
    assert keys'[i] == Some(k);
    forall x | x in m'
      ensures m[x] == m'[x]
    {
      if x != k {
        var j :| 0 <= j < |keys| && keys'[j] == Some(x);
        assert keys[j] == Some(x) && vals'[j] == vals[j];
      }
    }
    assert m.Keys == m'.Keys;
    assert m == m';
  }

  /** Freeing the slot of k takes k out of the map. */
  lemma {:induction false} ClearSlot(keys: Slots, vals: Slots, i: nat, k: string)
    requires Filled(keys, vals) && Unique(keys) && i < |keys| && keys[i] == Some(k)
    ensures Filled(keys[i := None], vals[i := None]) && Unique(keys[i := None])
    ensures Contents(keys[i := None], vals[i := None]) == Contents(keys, vals) - {k}
  {
    var keys', vals' := keys[i := None], vals[i := None];
    SlotKeys(keys, i, None);
    ContentsIs(keys, vals);
    ContentsIs(keys', vals');
    hide Contents, Unique;
    var m, m' := Contents(keys, vals) - {k}, Contents(keys', vals');
    forall x | x in m'
      ensures x in m && m[x] == m'[x]
    {
      var j :| 0 <= j < |keys| && keys'[j] == Some(x);
      assert keys[j] == Some(x) && vals'[j] == vals[j];
    }
    assert m.Keys == m'.Keys;
    assert m == m';
  }

  /** Growing the table adds free slots only. */
  lemma {:induction false} GrowSlots(keys: Slots, vals: Slots, extra: nat)
    requires Filled(keys, vals) && Unique(keys)
    ensures var none := seq(extra, _ => None);
            Filled(keys + none, vals + none) && Unique(keys + none) &&
            Contents(keys + none, vals + none) == Contents(keys, vals)
  {
    var none := seq(extra, _ => None);
    if extra == 0 {
      assert keys + none == keys && vals + none == vals;
    } else {
      GrowSlots(keys, vals, extra - 1);
      var less := seq(extra - 1, _ => None);
      assert (keys + none)[..|keys| + extra - 1] == keys + less;
      assert (vals + none)[..|keys| + extra - 1] == vals + less;
    }
  }

  lemma {:induction false} EmptyTable(keys: Slots, vals: Slots)
    requires |keys| == |vals| && forall i :: 0 <= i < |keys| ==> keys[i].None? && vals[i].None?
    ensures Occupied(keys) == 0 && Filled(keys, vals) && Unique(keys) && Contents(keys, vals) == map[]
  {
    var none: Slots := seq(|keys|, _ => None);
    assert keys == [] + none && vals == [] + none;
    OccupiedGrow([], |keys|);
    GrowSlots([], [], |keys|);
  }

  // ---------------------------------------------------------------- dictionary

  class Dictionary {
    var n: nat
    var size: nat
    var key: array<Option<string>>
    var val: array<Option<string>>
    var hash: array<bv32>

    ghost function Repr(): set<object>
      reads this
    {
      {this, key, val, hash}
    }

    ghost predicate Separate()
      reads this
    {
      key != val && key as object != hash && val as object != hash
    }

    /** Shape of the arrays, the count of occupied slots, unique keys and right cached hashes. */
    ghost predicate Valid()
      reads this, key, val, hash
    {
      && key.Length == val.Length == hash.Length == size > 0 && Separate()
      && n == Occupied(key[..])
      && Filled(key[..], val[..]) && Unique(key[..])
      && forall i :: 0 <= i < size && key[i].Some? ==> hash[i] == Hash(key[i].value)
    }

    ghost function View(): map<string, string>
      requires Valid()
      reads this, key, val, hash
    {
      Contents(key[..], val[..])
    }

    constructor ()
      ensures Valid() && fresh(Repr()) && View() == map[]
    {
      n := 0;
      size := INITIAL_SIZE;
      key := new Option<string>[INITIAL_SIZE](_ => None);
      val := new Option<string>[INITIAL_SIZE](_ => None);
      hash := new bv32[INITIAL_SIZE](_ => 0);
      new;
      EmptyTable(key[..], val[..]);
      hide Occupied, Filled, Unique, Contents, Hash;
    }

    /** The slot of the key, or the size of the table. */
    method Search(k: string) returns (i: nat)
      requires Valid()
      ensures i <= size
      ensures i < size ==> key[i] == Some(k)
      ensures i == size ==> Some(k) !in key[..]
    {
      hide Hash, Unique, Filled;
      var h := ComputeHash(k);
      i := 0;
      while i < size
        invariant 0 <= i <= size && Some(k) !in key[..i]
      {
        if key[i].Some? {
          if h == hash[i] {
            if key[i].value == k {
              return;
            }
          }
        }
        i := i + 1;
      }
      assert key[..i] == key[..];
    }

    method Get(k: string) returns (v: Option<string>)
      requires Valid()
      ensures v == if k in View() then Some(View()[k]) else None
    {
      ContentsIs(key[..], val[..]);
      var i := Search(k);
      if i < size {
        assert key[..][i] == Some(k);
        v := val[i];
      } else {
        v := None;
      }
    }

    method Set(k: string, v: string) returns (ret: int)
      requires Valid()
      modifies this, key, val, hash
      ensures Valid() && fresh(Repr() - old(Repr()))
      ensures View() == old(View())[k := v] && ret == 0
    {
      hide Occupied, Filled, Unique, Contents, Hash;
      if n > 0 {
        var i := Search(k);
        if i < size {
          OccupiedUpdate(key[..], i, Some(k));
          WriteSlot(i, k, v, hash[i]);
          return 0;
        }
      } else {
        NoneOccupied(key[..]);
        assert forall j :: 0 <= j < size ==> key[..][j].None?;
      }
      if n == size {
        Grow(k);
      }
      var i := Probe();
      var h := ComputeHash(k);
      OccupiedUpdate(key[..], i, Some(k));
      n := n + 1;
      WriteSlot(i, k, v, h);
      ret := 0;
    }

    /** Writes one slot; the count must already be right for the table that results. */
    method WriteSlot(i: nat, k: string, v: string, h: bv32)
      requires i < key.Length == val.Length == hash.Length == size && Separate()
      requires Filled(key[..], val[..]) && Unique(key[..])
      requires key[i] == Some(k) || (key[i].None? && Some(k) !in key[..])
      requires n == Occupied(key[..][i := Some(k)]) && h == Hash(k)
      requires forall j :: 0 <= j < size && key[j].Some? ==> hash[j] == Hash(key[j].value)
      modifies key, val, hash
      ensures Valid() && View() == Contents(old(key[..]), old(val[..]))[k := v]
    {
      SetSlot(key[..], val[..], i, k, v);
      hide Occupied, Filled, Unique, Contents, Hash;
      Store(i, k, v, h);
    }

    /** Writes one slot. */
    method Store(i: nat, k: string, v: string, h: bv32)
      requires i < key.Length == val.Length == hash.Length && Separate()
      modifies key, val, hash
      ensures key[..] == old(key[..])[i := Some(k)] && val[..] == old(val[..])[i := Some(v)]
      ensures hash[..] == old(hash[..])[i := h]
    {
      key[i] := Some(k);
      val[i] := Some(v);
      hash[i] := h;
    }

    /** Doubles the table. */
    method Grow(ghost k: string)
      requires Valid() && Some(k) !in key[..]
      modifies this
      ensures Valid() && fresh(key) && fresh(val) && fresh(hash) && size == 2 * old(size) && n == old(n)
      ensures View() == old(View()) && Some(k) !in key[..]
    {
      var oldKey, oldVal, oldHash := key[..], val[..], hash[..];
      var s := size;
      key := new Option<string>[2 * s](i => if 0 <= i < |oldKey| then oldKey[i] else None);
      val := new Option<string>[2 * s](i => if 0 <= i < |oldVal| then oldVal[i] else None);
      hash := new bv32[2 * s](i => if 0 <= i < |oldHash| then oldHash[i] else 0);
      size := 2 * s;
      var none: Slots := seq(s, _ => None);
      assert key[..] == oldKey + none && val[..] == oldVal + none;
      GrowSlots(oldKey, oldVal, s);
      OccupiedGrow(oldKey, s);
    }

    /** The first free slot from n on, wrapping around at the end. */
    method Probe() returns (i: nat)
      requires Valid() && n < size
      ensures i < size && key[i].None?
    {
      ghost var f := FreeSlot(key[..]);
      i := n;
      while key[i].Some?
        invariant 0 <= i < size
        decreases if i <= f then f - i else f - i + size
      {
        i := i + 1;
        if i == size {
          i := 0;
        }
      }
    }

    method Remove(k: string)
      requires Valid()
      modifies this, key, val, hash
      ensures Valid() && Repr() == old(Repr())
      ensures View() == old(View()) - {k}
    {
      hide Occupied, Filled, Unique, Contents, Hash;
      var i := Search(k);
      ContentsIs(key[..], val[..]);
      if i >= size {
        assert View() - {k} == View();
        return;
      }
      ClearSlot(key[..], val[..], i, k);
      OccupiedUpdate(key[..], i, None);
      Free(i);
      n := n - 1;
    }

    method Free(i: nat)
      requires i < key.Length == val.Length == hash.Length && Separate()
      modifies key, val, hash
      ensures key[..] == old(key[..])[i := None] && val[..] == old(val[..])[i := None]
      ensures hash[..] == old(hash[..])[i := 0]
    {
      key[i] := None;
      val[i] := None;
      hash[i] := 0;
    }

    /** All keys, once each, in slot order. */
    method GetKeys() returns (l: seq<string>)
      requires Valid()
      ensures forall i, j :: 0 <= i < j < |l| ==> l[i] != l[j]
      ensures forall k :: k in l <==> k in View()
      ensures |l| == n
    {
      l := [];
      ContentsIs(key[..], val[..]);
      for i := 0 to size
        invariant forall k :: k in l <==> Some(k) in key[..i]
        invariant forall a, b :: 0 <= a < b < |l| ==> l[a] != l[b]
        invariant |l| == Occupied(key[..i])
      {
        assert key[..i + 1] == key[..i] + [key[i]];
        assert key[..i + 1][..i] == key[..i];
        if key[i].Some? {
          assert key[i] !in key[..i];
          l := l + [key[i].value];
        }
      }
      assert key[..size] == key[..];
    }
  }

  function Restrict(m: map<string, string>, keys: seq<string>): map<string, string> {
    map k | k in m && k in keys :: m[k]
  }

  lemma {:induction false} RestrictStep(m: map<string, string>, keys: seq<string>, e: nat)
    requires e < |keys| && keys[e] in m
    ensures Restrict(m, keys[..e + 1]) == Restrict(m, keys[..e])[keys[e] := m[keys[e]]]
  {
    assert keys[..e + 1] == keys[..e] + [keys[e]];
  }

  /** A new dictionary with the entries of the original one, if there is one. */
  method CopyUserData(origin: Dictionary?) returns (d: Dictionary)
    requires origin != null ==> origin.Valid()
    ensures d.Valid() && fresh(d.Repr())
    ensures d.View() == if origin == null then map[] else origin.View()
  {
    hide Contents, Occupied, Filled, Unique, Hash, Dictionary.View, Dictionary.Valid;
    d := new Dictionary();
    if origin != null {
      var keys := origin.GetKeys();
      ghost var all := origin.View();
      for e := 0 to |keys|
        invariant d.Valid() && fresh(d) && fresh(d.Repr())
        invariant origin.Valid() && origin.View() == all
        invariant d.View() == Restrict(all, keys[..e])
      {
        var v := origin.Get(keys[e]);
        RestrictStep(all, keys, e);
        var _ := d.Set(keys[e], v.value);
      }
      assert keys[..|keys|] == keys;
      assert Restrict(all, keys) == all;
    }
  }

  // ---------------------------------------------------------------- runs

  datatype Operation = SetOp(key: string, value: string) | GetOp(key: string) | RemoveOp(key: string)

  /** A run on a mathematical map: its final value and the answers of its lookups. */
  function OnMap(ops: seq<Operation>): (map<string, string>, seq<Option<string>>) {
    if ops == [] then (map[], [])
    else
      var (m, answers) := OnMap(ops[..|ops| - 1]);
      match ops[|ops| - 1]
      case SetOp(k, v) => (m[k := v], answers)
      case GetOp(k) => (m, answers + [if k in m then Some(m[k]) else None])
      case RemoveOp(k) => (m - {k}, answers)
  }

  /** Any sequence of operations on a new dictionary answers as it would on a map, and leaves
      exactly the map's keys. */
  method OnDictionary(ops: seq<Operation>) returns (answers: seq<Option<string>>, keys: seq<string>)
    ensures answers == OnMap(ops).1
    ensures |keys| == |OnMap(ops).0| && forall k :: k in keys <==> k in OnMap(ops).0
  {
    hide Contents, Occupied, Filled, Unique, Hash, Dictionary.View, Dictionary.Valid;
    var d := new Dictionary();
    answers := [];
    for i := 0 to |ops|
      invariant d.Valid() && fresh(d) && fresh(d.Repr())
      invariant OnMap(ops[..i]) == (d.View(), answers)
    {
      assert ops[..i + 1][..i] == ops[..i];
      match ops[i] {
        case SetOp(k, v) => var _ := d.Set(k, v);
        case GetOp(k) =>
          var v := d.Get(k);
          answers := answers + [v];
        case RemoveOp(k) => d.Remove(k);
      }
    }
    assert ops[..|ops|] == ops;
    keys := d.GetKeys();
    KeyCount(keys, d.View());
  }

  lemma {:induction false} DistinctSize(l: seq<string>)
    requires forall i, j :: 0 <= i < j < |l| ==> l[i] != l[j]
    ensures |set k | k in l| == |l|
  {
    if l != [] {
      var n := |l| - 1;
      DistinctSize(l[..n]);
      assert l == l[..n] + [l[n]];
      assert (set k | k in l) == (set k | k in l[..n]) + {l[n]};
    }
  }

  lemma {:induction false} KeyCount(keys: seq<string>, m: map<string, string>)
    requires forall i, j :: 0 <= i < j < |keys| ==> keys[i] != keys[j]
    requires forall k :: k in keys <==> k in m
    ensures |keys| == |m|
  {
    DistinctSize(keys);
    assert m.Keys == set k | k in keys;
  }
}

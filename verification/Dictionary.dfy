/** The string dictionary: three parallel arrays, cached hashes, holes left by
    deletion, wrap-around insertion and doubling. Every method is proved against
    the slot-table functions of module `Slots`. */
module Dictionary {
  import opened Options
  import opened Slots

  /** A `char *` result: NULL, a string, or the address -1 that callers pass as a
      default to recognise a missing key. */
  datatype Pointer = Null | Text(s: string) | InvalidKey

  function FromValue(v: Value): (p: Pointer)
    ensures p != InvalidKey
  {
    match v
    case None => Null
    case Some(s) => Text(s)
  }

  /** What a lookup of `k` returns. */
  function Lookup(s: seq<Slot>, k: string, def: Pointer): Pointer {
    if Find(s, k) < |s| then FromValue(s[Find(s, k)].val) else def
  }

  // ----- The hash

  /** The code of a character, as the hash adds it. */
  function Code(c: char): bv32 {
    c as bv32
  }

  function Mix(h: bv32, code: bv32): bv32 {
    var a := h + code;
    var b := a + (a << 10);
    b ^ (b >> 6)
  }

  function Finish(h: bv32): bv32 {
    var a := h + (h << 3);
    var b := a ^ (a >> 11);
    b + (b << 15)
  }

  function Mixed(key: string): bv32 {
    if key == "" then 0 else Mix(Mixed(key[..|key| - 1]), Code(key[|key| - 1]))
  }

  function HashOf(key: string): bv32 {
    Finish(Mixed(key))
  }

  lemma HashStep(key: string, c: char)
    ensures Mixed(key + [c]) == Mix(Mixed(key), Code(c))
  {
    assert (key + [c])[..|key|] == key;
  }

  lemma RoundValues()
    ensures Finish(0) == 0 && Mix(0, 97) == 0x0001_8270 && Finish(0x0001_8270) == 0xCA2E_9442
    ensures Mix(0, 114) == 0x0001_CF53 && Mix(0x0001_CF53, 111) == 0x075D_D49D
    ensures Mix(0x075D_D49D, 105) == 0x7F4B_2AB2 && Finish(0x7F4B_2AB2) == 0x5414_B4D2
  {
  }

  lemma CodeValues()
    ensures Code('a') == 97 && Code('r') == 114 && Code('o') == 111 && Code('i') == 105
  {
  }

  /** The hash of a few keys, among them the published value for "a". */
  lemma HashValues()
    ensures HashOf("") == 0 && HashOf("a") == 0xCA2E_9442 && HashOf("roi") == 0x5414_B4D2
  {
    RoundValues();
    CodeValues();
    hide Mix, Finish, Code;
    HashStep("", 'a');
    HashStep("", 'r');
    HashStep("r", 'o');
    HashStep("ro", 'i');
    assert "" + ['a'] == "a" && "" + ['r'] == "r" && "r" + ['o'] == "ro" && "ro" + ['i'] == "roi";
  }

  /** `dictionary_hash`. */
  method Hash(key: Option<string>) returns (hash: bv32)
    ensures hash == if key.Some? then HashOf(key.value) else 0
  {
    if key.None? {
      return 0;
    }
    var k := key.value;
    hash := 0;
    for i := 0 to |k|
      invariant hash == Mixed(k[..i])
    {
      assert k[..i + 1][..i] == k[..i];
      hash := Mix(hash, Code(k[i]));
    }
    assert k[..|k|] == k;
    hash := Finish(hash);
  }

  class Dictionary {
    var n: nat
    var size: nat
    var val: array<Value>
    var key: array<Option<string>>
    var hash: array<bv32>

    /** The arrays fit together, `n` counts the occupied slots, occupied keys are
        distinct and every cached hash is the hash of its key. */
    ghost predicate Valid()
      reads this, val, key, hash
    {
      && Shape()
      && n == Count(Slots())
      && Distinct(Slots())
      && forall i :: 0 <= i < size && key[i].Some? ==> hash[i] == HashOf(key[i].value)
    }

    ghost predicate Shape()
      reads this
    {
      && 0 < size == val.Length == key.Length == hash.Length
      && key as object != val && key as object != hash && val as object != hash
    }

    ghost function Slots(): (s: seq<Slot>)
      requires Shape()
      reads this, val, key
      ensures |s| == size
      ensures forall i :: 0 <= i < size ==> s[i] == (if key[i].Some? then Used(key[i].value, val[i]) else Free)
    {
      seq(size, i requires 0 <= i < size && Shape() reads this, val, key =>
        if key[i].Some? then Used(key[i].value, val[i]) else Free)
    }

    /** `dictionary_new`. */
    constructor (size: nat)
      ensures Valid() && fresh(val) && fresh(key) && fresh(hash)
      ensures Slots() == Frees(if size < MIN_SIZE then MIN_SIZE else size)
      ensures n == 0 && this.size == if size < 128 then 128 else size
    {
      var sz := if size < MIN_SIZE then MIN_SIZE else size;
      this.n, this.size := 0, sz;
      val := new Value[sz](_ => None);
      key := new Option<string>[sz](_ => None);
      hash := new bv32[sz](_ => 0);
      new;
      assert Slots() == Frees(sz);
      CountFrees(sz);
    }

    /** The scan shared by `dictionary_get`, `dictionary_set` and
        `dictionary_unset`: skip free slots, compare the hash, then the key. */
    method Scan(k: string, h: bv32) returns (i: nat)
      requires Valid() && h == HashOf(k)
      ensures i == Find(Slots(), k)
    {
      hide HashOf;
      i := 0;
      while i < size
        invariant i <= size
        invariant forall j :: 0 <= j < i ==> !(key[j].Some? && key[j].value == k)
      {
        if key[i].Some? && h == hash[i] && k == key[i].value {
          return;
        }
        i := i + 1;
      }
    }

    /** `dictionary_get`. */
    method Get(k: string, def: Pointer) returns (p: Pointer)
      requires Valid()
      ensures p == Lookup(Slots(), k, def)
      ensures p == if k in ToMap(Slots()) then FromValue(ToMap(Slots())[k]) else def
    {
      InMap(Slots(), k);
      var h := Hash(Some(k));
      var i := Scan(k, h);
      p := if i < size then FromValue(val[i]) else def;
    }

    /** `dictionary_grow`: twice the slots, the old ones in front. */
    method Grow()
      requires Shape()
      modifies this
      ensures Shape() && fresh(val) && fresh(key) && fresh(hash)
      ensures n == old(n) && size == 2 * old(size)
      ensures Slots() == old(Slots()) + Frees(old(size))
      ensures hash[..old(size)] == old(hash[..])
    {
      var newVal := new Value[size * 2](i requires 0 <= i reads this, val =>
        if i < val.Length then val[i] else None);
      var newKey := new Option<string>[size * 2](i requires 0 <= i reads this, key =>
        if i < key.Length then key[i] else None);
      var newHash := new bv32[size * 2](i requires 0 <= i reads this, hash =>
        if i < hash.Length then hash[i] else 0);
      size := size * 2;
      val, key, hash := newVal, newKey, newHash;
    }

    /** The insertion probe: start at `n`, wrap at `size`. It passes occupied slots
        only and stops within `size` steps. */
    method FirstEmpty() returns (i: nat, ghost steps: nat)
      requires Shape() && n == Count(Slots()) < size
      ensures i == Probe(Slots(), n) < size
      ensures steps < size
    {
      FullIffCounted(Slots());
      ghost var hole :| 0 <= hole < size && Slots()[hole].Free?;
      i, steps := n, 0;
      while key[i].Some?
        invariant i < size
        invariant if n <= i then steps == i - n else steps == size - n + i
        invariant if n <= i then forall j :: n <= j < i ==> key[j].Some?
                  else (forall j :: n <= j < size ==> key[j].Some?) && forall j :: 0 <= j < i ==> key[j].Some?
        decreases size - steps
      {
        assert key[hole].None?;
        i, steps := i + 1, steps + 1;
        if i == size {
          i := 0;
        }
      }
    }

    /** The branch of `dictionary_set` for a key that is present. */
    method Overwrite(i: nat, k: string, v: Value)
      requires Valid() && i == Find(Slots(), k) < size
      modifies val
      ensures Valid() && Slots() == SetSlots(old(Slots()), k, v)
    {
      hide HashOf;
      ghost var s := Slots();
      val[i] := v;
      assert Slots() == s[i := Used(k, v)];
      PutInv(s, i, k, v);
    }

    /** The branch of `dictionary_set` for a new key, once there is room. */
    method Insert(k: string, v: Value, h: bv32)
      requires Valid() && h == HashOf(k)
      requires n < size && Find(Slots(), k) == size
      modifies this`n, val, key, hash
      ensures Valid()
      ensures Probe(old(Slots()), old(n)) < size
      ensures Slots() == old(Slots())[Probe(old(Slots()), old(n)) := Used(k, v)]
    {
      hide HashOf;
      ghost var s := Slots();
      var i, steps := FirstEmpty();
      PutInv(s, i, k, v);
      key[i] := Some(k);
      val[i] := v;
      hash[i] := h;
      n := n + 1;
      assert Slots() == s[i := Used(k, v)];
    }

    /** `dictionary_grow` when the table is full. */
    method EnsureRoom()
      requires Valid()
      modifies this
      ensures Valid() && n == old(n) < size
      ensures val == old(val) || fresh(val)
      ensures key == old(key) || fresh(key)
      ensures hash == old(hash) || fresh(hash)
      ensures Slots() == Grown(old(Slots()))
    {
      hide HashOf;
      ghost var s := Slots();
      GrownHasRoom(s);
      PaddedInv(s, Grown(s), "");
      if n == size {
        ghost var ks, hs := key[..], hash[..];
        Grow();
        forall i | 0 <= i < size && key[i].Some? ensures hash[i] == HashOf(key[i].value) {
          assert Slots()[i].Used? && i < |s| && s[i] == Slots()[i];
          assert hash[i] == hs[i] && ks[i] == key[i];
        }
      }
    }

    /** The part of `dictionary_set` after the search failed. */
    method Add(k: string, v: Value, h: bv32)
      requires Valid() && h == HashOf(k) && Find(Slots(), k) == size
      modifies this, val, key, hash
      ensures Valid()
      ensures val == old(val) || fresh(val)
      ensures key == old(key) || fresh(key)
      ensures hash == old(hash) || fresh(hash)
      ensures Slots() == SetSlots(old(Slots()), k, v)
    {
      hide HashOf;
      ghost var s := Slots();
      PaddedInv(s, Grown(s), k);
      EnsureRoom();
      Insert(k, v, h);
    }

    /** `dictionary_set`. */
    method Set(k: Option<string>, v: Value) returns (status: int)
      requires Valid()
      modifies this, val, key, hash
      ensures Valid()
      ensures val == old(val) || fresh(val)
      ensures key == old(key) || fresh(key)
      ensures hash == old(hash) || fresh(hash)
      ensures k.None? ==> status == -1 && Slots() == old(Slots())
      ensures k.Some? ==> status == 0 && Slots() == SetSlots(old(Slots()), k.value, v)
    {
      hide *;
      if k.None? {
        return -1;
      }
      var h := Hash(k);
      if n > 0 {
        var i := Scan(k.value, h);
        if i < size {
          Overwrite(i, k.value, v);
          return 0;
        }
      } else {
        NothingStored(k.value);
      }
      Add(k.value, v, h);
      return 0;
    }

    lemma NothingStored(k: string)
      requires Valid() && n == 0
      ensures Find(Slots(), k) == size
    {
      EmptyFindsNothing(Slots(), k);
    }

    /** `dictionary_unset`. */
    method Unset(k: Option<string>)
      requires Valid()
      modifies this, val, key, hash
      ensures Valid() && val == old(val) && key == old(key) && hash == old(hash)
      ensures Slots() == if k.Some? then UnsetSlots(old(Slots()), k.value) else old(Slots())
    {
      hide HashOf;
      if k.None? {
        return;
      }
      var h := Hash(k);
      var i := Scan(k.value, h);
      if i >= size {
        return;
      }
      ClearSlot(i);
    }

    method ClearSlot(i: nat)
      requires Valid() && i < size && key[i].Some?
      modifies this`n, val, key, hash
      ensures Valid() && Slots() == old(Slots())[i := Free]
    {
      hide HashOf;
      ghost var s := Slots();
      DropInv(s, i);
      key[i] := None;
      if val[i].Some? {
        val[i] := None;
      }
      hash[i] := 0;
      n := n - 1;
      assert Slots() == s[i := Free];
    }
  }

  lemma {:induction false} EmptyFindsNothing(s: seq<Slot>, k: string)
    requires Count(s) == 0
    ensures Find(s, k) == |s|
  {
    if Find(s, k) < |s| {
      CountUpdate(s, Find(s, k), Free);
    }
  }
}

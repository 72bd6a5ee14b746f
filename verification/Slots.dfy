/** The slot table of the configuration store, as a value.

    A `seq<Slot>` is what the three parallel arrays of a dictionary hold. The
    functions below say what each dictionary operation does to the slots; the
    lemmas say what that means for the map the table stands for. */
module Slots {
  import opened Options

  /** The value of a stored key: `None` is a NULL value pointer. */
  type Value = Option<string>

  datatype Slot = Free | Used(key: string, val: Value)

  /** The smallest table that is ever allocated. */
  const MIN_SIZE: nat := 128

  // ----- What a table stands for

  ghost predicate Distinct(s: seq<Slot>) {
    forall i, j :: 0 <= i < j < |s| && s[i].Used? && s[j].Used? ==> s[i].key != s[j].key
  }

  /** The number of occupied slots. */
  function Count(s: seq<Slot>): (c: nat)
    ensures c <= |s|
  {
    if s == [] then 0
    else Count(s[..|s| - 1]) + if s[|s| - 1].Used? then 1 else 0
  }

  /** The first slot that holds `k`; `|s|` when there is none. */
  function Find(s: seq<Slot>, k: string): (i: nat)
    ensures i <= |s|
    ensures i < |s| ==> s[i].Used? && s[i].key == k
    ensures forall j :: 0 <= j < i ==> !(s[j].Used? && s[j].key == k)
  {
    if s == [] then 0
    else if s[0].Used? && s[0].key == k then 0
    else 1 + Find(s[1..], k)
  }

  /** The map a table stands for. */
  ghost function ToMap(s: seq<Slot>): map<string, Value> {
    map k | k in Keys(s) && Find(s, k) < |s| :: s[Find(s, k)].val
  }

  ghost function Keys(s: seq<Slot>): set<string> {
    set i | 0 <= i < |s| && s[i].Used? :: s[i].key
  }

  /** `m` has exactly the entries of the slots: the same fact as `ToMap(s) == m`,
      slot by slot. */
  ghost predicate Denotes(s: seq<Slot>, m: map<string, Value>) {
    && (forall i :: 0 <= i < |s| && s[i].Used? ==> s[i].key in m && m[s[i].key] == s[i].val)
    && (forall k :: k in m ==> Find(s, k) < |s|)
  }

  // ----- What the operations do to the slots

  function Frees(n: nat): (s: seq<Slot>)
    ensures |s| == n && forall i :: 0 <= i < n ==> s[i] == Free
  {
    seq(n, _ => Free)
  }

  /** `j` is the slot the wrap-around probe reaches from `from`: it is free, and
      every slot passed on the way is occupied. */
  ghost predicate IsProbeTarget(s: seq<Slot>, from: nat, j: nat) {
    && j < |s| && s[j].Free?
    && if from <= j then forall i :: from <= i < j ==> s[i].Used?
       else (forall i :: from <= i < |s| ==> s[i].Used?) && forall i :: 0 <= i < j ==> s[i].Used?
  }

  /** The first free slot at or after `from`; `|s|` when there is none. */
  function FirstFree(s: seq<Slot>, from: nat): (j: nat)
    requires from <= |s|
    ensures from <= j <= |s|
    ensures j < |s| ==> s[j].Free?
    ensures forall i :: from <= i < j ==> s[i].Used?
    decreases |s| - from
  {
    if from == |s| || s[from].Free? then from else FirstFree(s, from + 1)
  }

  function Probe(s: seq<Slot>, from: nat): (j: nat)
    requires from <= |s|
    ensures j < |s| ==> IsProbeTarget(s, from, j)
    ensures j == |s| ==> forall i :: 0 <= i < |s| ==> s[i].Used?
    ensures j <= |s|
  {
    var j := FirstFree(s, from);
    if j < |s| then j else FirstFree(s, 0)
  }

  /** A full table is doubled with free slots; any other is left alone. */
  function Grown(s: seq<Slot>): (g: seq<Slot>)
    ensures s <= g && forall i :: |s| <= i < |g| ==> g[i].Free?
  {
    if Count(s) == |s| then s + Frees(|s|) else s
  }

  function SetSlots(s: seq<Slot>, k: string, v: Value): (r: seq<Slot>) {
    var i := Find(s, k);
    if i < |s| then s[i := Used(k, v)]
    else
      var g := Grown(s);
      var j := Probe(g, Count(s));
      if j < |g| then g[j := Used(k, v)] else g
  }

  function UnsetSlots(s: seq<Slot>, k: string): (r: seq<Slot>) {
    var i := Find(s, k);
    if i < |s| then s[i := Free] else s
  }

  // ----- Counting

  lemma {:induction false} CountUpdate(s: seq<Slot>, i: nat, x: Slot)
    requires i < |s|
    ensures Count(s[i := x]) == Count(s) - (if s[i].Used? then 1 else 0) + (if x.Used? then 1 else 0)
  {
    var t := s[i := x];
    var last := |s| - 1;
    if i == last {
      assert t[..last] == s[..last];
    } else {
      CountUpdate(s[..last], i, x);
      assert t[..last] == s[..last][i := x];
    }
  }

  lemma {:induction false} CountAppend(a: seq<Slot>, b: seq<Slot>)
    ensures Count(a + b) == Count(a) + Count(b)
  {
    if b == [] {
      assert a + b == a;
    } else {
      assert (a + b)[..|a + b| - 1] == a + b[..|b| - 1];
      CountAppend(a, b[..|b| - 1]);
    }
  }

  lemma {:induction false} CountFrees(n: nat)
    ensures Count(Frees(n)) == 0
  {
    if n > 0 {
      assert Frees(n)[..n - 1] == Frees(n - 1);
      CountFrees(n - 1);
    }
  }

  /** A table that is not counted full has a free slot. */
  lemma {:induction false} FullIffCounted(s: seq<Slot>)
    ensures Count(s) == |s| <==> forall i :: 0 <= i < |s| ==> s[i].Used?
  {
    if s != [] {
      var t := s[..|s| - 1];
      FullIffCounted(t);
      assert forall i :: 0 <= i < |t| ==> t[i] == s[i];
    }
  }

  // ----- One operation keeps the invariant and refines one map operation

  /** In a table with distinct keys any slot holding `k` is the one that is found. */
  lemma FindAt(s: seq<Slot>, k: string, i: nat)
    requires Distinct(s) && i < |s| && s[i].Used? && s[i].key == k
    ensures Find(s, k) == i
  {
  }

  lemma DenotesToMap(s: seq<Slot>)
    requires Distinct(s)
    ensures Denotes(s, ToMap(s))
  {
    forall i | 0 <= i < |s| && s[i].Used?
      ensures s[i].key in ToMap(s) && ToMap(s)[s[i].key] == s[i].val
    {
      FindAt(s, s[i].key, i);
      assert s[i].key in Keys(s);
    }
  }

  lemma DenotesUnique(s: seq<Slot>, m: map<string, Value>)
    requires Denotes(s, m)
    ensures ToMap(s) == m
  {
    forall k | k in m ensures k in ToMap(s) && ToMap(s)[k] == m[k] {
      var i := Find(s, k);
      assert s[i].key in Keys(s);
    }
  }

  /** A key is in the map exactly when some slot holds it. */
  lemma InMap(s: seq<Slot>, k: string)
    ensures k in ToMap(s) <==> Find(s, k) < |s|
    ensures k in ToMap(s) ==> ToMap(s)[k] == s[Find(s, k)].val
  {
    if Find(s, k) < |s| {
      assert s[Find(s, k)].key in Keys(s);
    }
  }

  /** The grown table has room: the probe that starts at the entry count ends. */
  lemma GrownHasRoom(s: seq<Slot>)
    requires |s| > 0
    ensures Count(Grown(s)) == Count(s) < |Grown(s)|
    ensures Probe(Grown(s), Count(s)) < |Grown(s)|
  {
    var g := Grown(s);
    if Count(s) == |s| {
      CountAppend(s, Frees(|s|));
      CountFrees(|s|);
    }
    FullIffCounted(g);
  }

  /** Free slots at the end change nothing that can be observed. */
  lemma PaddedInv(s: seq<Slot>, g: seq<Slot>, k: string)
    requires Distinct(s)
    requires s <= g && forall i :: |s| <= i < |g| ==> g[i].Free?
    ensures Distinct(g) && (Find(g, k) < |g| <==> Find(s, k) < |s|)
  {
    forall i | 0 <= i < |g| && g[i].Used? ensures i < |s| && g[i] == s[i] {
    }
    if Find(s, k) < |s| {
      assert g[Find(s, k)] == s[Find(s, k)];
    }
  }

  lemma PaddedMap(s: seq<Slot>, g: seq<Slot>)
    requires Distinct(s)
    requires s <= g && forall i :: |s| <= i < |g| ==> g[i].Free?
    ensures ToMap(g) == ToMap(s)
  {
    DenotesToMap(s);
    forall i | 0 <= i < |g| && g[i].Used? ensures i < |s| && g[i] == s[i] {
    }
    forall k | k in ToMap(s) ensures Find(g, k) < |g| {
      PaddedInv(s, g, k);
    }
    assert Denotes(g, ToMap(s));
    DenotesUnique(g, ToMap(s));
  }

  lemma PutInv(s: seq<Slot>, i: nat, k: string, v: Value)
    requires Distinct(s) && i < |s|
    requires Find(s, k) == i || (s[i].Free? && Find(s, k) == |s|)
    ensures Distinct(s[i := Used(k, v)])
    ensures Count(s[i := Used(k, v)]) == Count(s) + if s[i].Used? then 0 else 1
    ensures forall j :: 0 <= j < |s| && j != i && s[j].Used? ==> s[j].key != k
  {
    assert forall j :: 0 <= j < |s| && s[j].Used? && s[j].key == k ==> Find(s, k) <= j;
    CountUpdate(s, i, Used(k, v));
  }

  /** Writing a key into the slot that holds it, or into a free slot when no slot
      holds it, is a map update. */
  lemma PutMap(s: seq<Slot>, i: nat, k: string, v: Value)
    requires Distinct(s) && i < |s|
    requires Find(s, k) == i || (s[i].Free? && Find(s, k) == |s|)
    ensures ToMap(s[i := Used(k, v)]) == ToMap(s)[k := v]
  {
    PutInv(s, i, k, v);
    DenotesToMap(s);
    PutDenotes(s, i, k, v, ToMap(s));
    DenotesUnique(s[i := Used(k, v)], ToMap(s)[k := v]);
  }

  lemma PutDenotes(s: seq<Slot>, i: nat, k: string, v: Value, m: map<string, Value>)
    requires i < |s| && Denotes(s, m) && (s[i].Used? ==> s[i].key == k)
    requires forall j :: 0 <= j < |s| && j != i && s[j].Used? ==> s[j].key != k
    ensures Denotes(s[i := Used(k, v)], m[k := v])
  {
    var t := s[i := Used(k, v)];
    assert t[i].Used? && t[i].key == k;
    forall q | q in m && q != k ensures Find(t, q) < |t| {
      assert t[Find(s, q)] == s[Find(s, q)];
    }
  }

  lemma DropInv(s: seq<Slot>, i: nat)
    requires Distinct(s) && i < |s| && s[i].Used?
    ensures Distinct(s[i := Free])
    ensures Count(s[i := Free]) == Count(s) - 1
  {
    CountUpdate(s, i, Free);
  }

  lemma DropMap(s: seq<Slot>, k: string)
    requires Distinct(s)
    ensures ToMap(UnsetSlots(s, k)) == ToMap(s) - {k}
  {
    var t, m := UnsetSlots(s, k), ToMap(s) - {k};
    DenotesToMap(s);
    forall j | 0 <= j < |t| && t[j].Used? ensures t[j] == s[j] && t[j].key != k {
    }
    forall q | q in m ensures Find(t, q) < |t| {
      assert t[Find(s, q)] == s[Find(s, q)];
    }
    assert Denotes(t, m);
    DenotesUnique(t, m);
  }

  /** `dictionary_set` on a non-empty table is a map update, and adds one to the
      count exactly when the key is new. */
  lemma SetRefines(s: seq<Slot>, k: string, v: Value)
    requires Distinct(s) && |s| > 0
    ensures var r := SetSlots(s, k, v);
            && Distinct(r) && |s| <= |r|
            && ToMap(r) == ToMap(s)[k := v]
            && Count(r) == Count(s) + (if k in ToMap(s) then 0 else 1)
  {
    var i := Find(s, k);
    InMap(s, k);
    if i < |s| {
      PutInv(s, i, k, v);
      PutMap(s, i, k, v);
    } else {
      GrownHasRoom(s);
      var g := Grown(s);
      PaddedInv(s, g, k);
      PaddedMap(s, g);
      var j := Probe(g, Count(s));
      PutInv(g, j, k, v);
      PutMap(g, j, k, v);
    }
  }

  lemma UnsetRefines(s: seq<Slot>, k: string)
    requires Distinct(s)
    ensures var r := UnsetSlots(s, k);
            && Distinct(r) && |r| == |s|
            && ToMap(r) == ToMap(s) - {k}
            && Count(r) == Count(s) - (if k in ToMap(s) then 1 else 0)
  {
    DropMap(s, k);
    InMap(s, k);
    var i := Find(s, k);
    if i < |s| {
      DropInv(s, i);
    }
  }
}

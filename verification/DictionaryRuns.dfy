/** Whole runs of dictionary calls: they refine a plain map, and without deletions
    they keep first-insertion order. */
module DictionaryRuns {
  import opened Slots
  import opened Dictionary

  datatype Op =
    | OpSet(key: string, val: Value)
    | OpUnset(key: string)
    | OpGet(key: string, def: Pointer)

  // ----- The two machines

  function StepSlots(s: seq<Slot>, op: Op): seq<Slot> {
    match op
    case OpSet(k, v) => SetSlots(s, k, v)
    case OpUnset(k) => UnsetSlots(s, k)
    case OpGet(_, _) => s
  }

  function StepMap(m: map<string, Value>, op: Op): map<string, Value> {
    match op
    case OpSet(k, v) => m[k := v]
    case OpUnset(k) => m - {k}
    case OpGet(_, _) => m
  }

  function MapGet(m: map<string, Value>, k: string, def: Pointer): Pointer {
    if k in m then FromValue(m[k]) else def
  }

  function RunSlots(s: seq<Slot>, ops: seq<Op>): seq<Slot> {
    if ops == [] then s else StepSlots(RunSlots(s, ops[..|ops| - 1]), ops[|ops| - 1])
  }

  function RunMap(ops: seq<Op>): map<string, Value> {
    if ops == [] then map[] else StepMap(RunMap(ops[..|ops| - 1]), ops[|ops| - 1])
  }

  /** The answers of the `OpGet` calls of a run, in order, on each machine. */
  function AnswersSlots(s: seq<Slot>, ops: seq<Op>): seq<Pointer> {
    if ops == [] then []
    else
      var init, op := ops[..|ops| - 1], ops[|ops| - 1];
      AnswersSlots(s, init) + if op.OpGet? then [Lookup(RunSlots(s, init), op.key, op.def)] else []
  }

  function AnswersMap(ops: seq<Op>): seq<Pointer> {
    if ops == [] then []
    else
      var init, op := ops[..|ops| - 1], ops[|ops| - 1];
      AnswersMap(init) + if op.OpGet? then [MapGet(RunMap(init), op.key, op.def)] else []
  }

  // ----- Refinement over every run

  lemma EmptyTable(size: nat)
    ensures Distinct(Frees(size)) && ToMap(Frees(size)) == map[] && Count(Frees(size)) == 0
  {
    CountFrees(size);
    assert Keys(Frees(size)) == {};
  }

  /** The table of any run has distinct keys, one occupied slot per key, and stands
      for the map the same run computes. */
  lemma {:induction false} RunRefinesMap(size: nat, ops: seq<Op>)
    requires size > 0
    ensures var s := RunSlots(Frees(size), ops);
            Distinct(s) && |s| >= size && ToMap(s) == RunMap(ops) && Count(s) == |RunMap(ops)|
  {
    if ops == [] {
      EmptyTable(size);
    } else {
      var init, op := ops[..|ops| - 1], ops[|ops| - 1];
      RunRefinesMap(size, init);
      var s := RunSlots(Frees(size), init);
      match op {
        case OpSet(k, v) => SetRefines(s, k, v); UpdateCard(ToMap(s), k, v);
        case OpUnset(k) => UnsetRefines(s, k); RemoveCard(ToMap(s), k);
        case OpGet(_, _) =>
      }
    }
  }

  lemma UpdateCard<K, V>(m: map<K, V>, k: K, v: V)
    ensures |m[k := v]| == |m| + if k in m then 0 else 1
  {
    assert m[k := v].Keys == m.Keys + {k};
  }

  lemma RemoveCard<K, V>(m: map<K, V>, k: K)
    ensures |m - {k}| == |m| - if k in m then 1 else 0
  {
    assert (m - {k}).Keys == m.Keys - {k};
  }

  /** A caller cannot tell the table from the map: every lookup made at any point of
      any run gives the same answer. */
  lemma {:induction false} AnswersAgree(size: nat, ops: seq<Op>)
    requires size > 0
    ensures AnswersSlots(Frees(size), ops) == AnswersMap(ops)
  {
    if ops != [] {
      var init, op := ops[..|ops| - 1], ops[|ops| - 1];
      AnswersAgree(size, init);
      if op.OpGet? {
        RunRefinesMap(size, init);
        InMap(RunSlots(Frees(size), init), op.key);
      }
    }
  }

  // ----- Runs without deletion

  /** One `dictionary_set` call. */
  type Pair = (string, Value)

  function SetAll(s: seq<Slot>, sets: seq<Pair>): seq<Slot> {
    if sets == [] then s
    else SetSlots(SetAll(s, sets[..|sets| - 1]), sets[|sets| - 1].0, sets[|sets| - 1].1)
  }

  function MapAll(sets: seq<Pair>): map<string, Value> {
    if sets == [] then map[]
    else MapAll(sets[..|sets| - 1])[sets[|sets| - 1].0 := sets[|sets| - 1].1]
  }

  /** The distinct keys of a list of calls, in order of first occurrence. */
  function FirstSeen(sets: seq<Pair>): (ks: seq<string>)
    ensures forall k :: k in ks <==> k in MapAll(sets)
  {
    if sets == [] then []
    else
      var init, k := sets[..|sets| - 1], sets[|sets| - 1].0;
      FirstSeen(init) + if k in FirstSeen(init) then [] else [k]
  }

  /** The occupied slots are exactly slots 0 to `|ks| - 1`, holding `ks` in order. */
  ghost predicate Packed(s: seq<Slot>, ks: seq<string>) {
    && |ks| <= |s|
    && (forall i :: 0 <= i < |ks| ==> s[i].Used? && s[i].key == ks[i])
    && (forall i :: |ks| <= i < |s| ==> s[i].Free?)
  }

  lemma {:induction false} PackedCount(s: seq<Slot>, ks: seq<string>)
    requires Packed(s, ks)
    ensures Count(s) == |ks|
  {
    hide Count;
    assert s == s[..|ks|] + Frees(|s| - |ks|);
    assert forall i :: 0 <= i < |ks| ==> s[..|ks|][i] == s[i];
    CountAppend(s[..|ks|], Frees(|s| - |ks|));
    CountFrees(|s| - |ks|);
    FullIffCounted(s[..|ks|]);
  }

  lemma PackedFind(s: seq<Slot>, ks: seq<string>, k: string)
    requires Packed(s, ks)
    ensures Find(s, k) < |s| <==> k in ks
  {
    if k in ks {
      var i :| 0 <= i < |ks| && ks[i] == k;
      assert s[i].Used?;
    }
  }

  lemma PackedInsert(g: seq<Slot>, ks: seq<string>, k: string, v: Value)
    requires Packed(g, ks) && |ks| < |g|
    ensures Probe(g, |ks|) == |ks|
    ensures Packed(g[|ks| := Used(k, v)], ks + [k])
  {
  }

  /** A new key goes to slot `n`, whether or not the table has to grow first. */
  lemma PackedSet(s: seq<Slot>, ks: seq<string>, k: string, v: Value)
    requires Packed(s, ks) && |s| > 0
    ensures Packed(SetSlots(s, k, v), if k in ks then ks else ks + [k])
  {
    PackedCount(s, ks);
    PackedFind(s, ks, k);
    if Find(s, k) == |s| {
      GrownHasRoom(s);
      PackedInsert(Grown(s), ks, k, v);
    }
  }

  /** In every run without `dictionary_unset`, over any number of growths, the
      occupied slots are 0 to n-1 in order of first insertion. */
  lemma {:induction false} InsertionOrder(size: nat, sets: seq<Pair>)
    requires size > 0
    ensures Packed(SetAll(Frees(size), sets), FirstSeen(sets))
    ensures |SetAll(Frees(size), sets)| >= size
  {
    if sets != [] {
      var init, last := sets[..|sets| - 1], sets[|sets| - 1];
      InsertionOrder(size, init);
      PackedSet(SetAll(Frees(size), init), FirstSeen(init), last.0, last.1);
    }
  }

  lemma {:induction false} SetAllRefines(size: nat, sets: seq<Pair>)
    requires size > 0
    ensures Distinct(SetAll(Frees(size), sets)) && |SetAll(Frees(size), sets)| > 0
    ensures ToMap(SetAll(Frees(size), sets)) == MapAll(sets)
  {
    if sets == [] {
      EmptyTable(size);
    } else {
      var init, last := sets[..|sets| - 1], sets[|sets| - 1];
      SetAllRefines(size, init);
      SetRefines(SetAll(Frees(size), init), last.0, last.1);
    }
  }
}

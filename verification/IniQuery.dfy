/** Sections and their keys: the scans over a loaded dictionary. */
module IniQuery {
  import opened Options
  import opened Slots
  import opened Dictionary
  import opened DictionaryRuns
  import opened Text

  /** The size of the name buffers, without their NUL. */
  const NAME_MAX: nat := 1024

  /** A key without a colon names a section. */
  predicate IsSection(k: string) {
    ':' !in k
  }

  /** The section an entry belongs to: what comes before the first colon. */
  function SectionOf(k: string): string {
    k[..SpanNot(k, ":")]
  }

  /** The `strncmp` test against "section:". */
  predicate Matches(k: string, sec: string) {
    sec + ":" <= k
  }

  /** The section names of a table, in slot order. */
  function Sections(s: seq<Slot>): seq<string> {
    if s == [] then []
    else Sections(s[..|s| - 1]) + SectionAt(s[|s| - 1])
  }

  function SectionAt(x: Slot): seq<string> {
    if x.Used? && IsSection(x.key) then [x.key] else []
  }

  /** The full keys of one section, in slot order. */
  function SectionKeys(s: seq<Slot>, sec: string): seq<string> {
    if s == [] then []
    else SectionKeys(s[..|s| - 1], sec) + KeyAt(s[|s| - 1], sec)
  }

  function KeyAt(x: Slot, sec: string): seq<string> {
    if x.Used? && Matches(x.key, sec) then [x.key] else []
  }

  /** `iniparser_find_entry` on the slots: the name is lower-cased into a buffer of
      `NAME_MAX` characters before the lookup. */
  predicate Found(s: seq<Slot>, name: string) {
    Find(s, Lower(Take(name, NAME_MAX))) < |s|
  }

  /** `iniparser_getsecnkeys` on the slots. */
  function KeyCount(s: seq<Slot>, sec: string): nat {
    if Found(s, sec) then |SectionKeys(s, Lower(sec))| else 0
  }

  /** Names are looked up without regard to case. */
  lemma CaseIgnored(s: seq<Slot>, a: string, b: string)
    requires Lower(a) == Lower(b)
    ensures Found(s, a) == Found(s, b) && KeyCount(s, a) == KeyCount(s, b)
  {
    assert Lower(Take(a, NAME_MAX)) == Take(Lower(a), NAME_MAX);
    assert Lower(Take(b, NAME_MAX)) == Take(Lower(b), NAME_MAX);
  }

  // ----- The scans

  lemma SectionsStep(s: seq<Slot>, i: nat)
    requires i < |s|
    ensures Sections(s[..i + 1]) == Sections(s[..i]) + SectionAt(s[i])
  {
    assert s[..i + 1][..i] == s[..i];
  }

  lemma KeysStep(s: seq<Slot>, i: nat, sec: string)
    requires i < |s|
    ensures SectionKeys(s[..i + 1], sec) == SectionKeys(s[..i], sec) + KeyAt(s[i], sec)
  {
    assert s[..i + 1][..i] == s[..i];
  }

  lemma SectionsCount(s: seq<Slot>, i: nat)
    requires i < |s|
    ensures |Sections(s[..i + 1])| == |Sections(s[..i])| + if s[i].Used? && ':' !in s[i].key then 1 else 0
  {
    SectionsStep(s, i);
    hide Sections;
  }

  lemma {:induction false} SectionsPrefix(s: seq<Slot>, i: nat)
    requires i <= |s|
    ensures Sections(s[..i]) <= Sections(s)
    decreases |s| - i
  {
    if i == |s| {
      assert s[..i] == s;
    } else {
      SectionsPrefix(s, i + 1);
      SectionsStep(s, i);
    }
  }

  /** A slot that holds a section is listed after the sections before it. */
  lemma NthSection(s: seq<Slot>, i: nat)
    requires i < |s| && s[i].Used? && ':' !in s[i].key
    ensures |Sections(s[..i])| < |Sections(s)| && Sections(s)[|Sections(s[..i])|] == s[i].key
  {
    SectionsStep(s, i);
    SectionsPrefix(s, i + 1);
    hide Sections;
    var t := Sections(s[..i + 1]);
    assert t[|t| - 1] == Sections(s)[|t| - 1];
  }

  lemma {:induction false} KeysPrefix(s: seq<Slot>, i: nat, sec: string)
    requires i <= |s|
    ensures |SectionKeys(s[..i], sec)| <= |SectionKeys(s, sec)|
    decreases |s| - i
  {
    if i == |s| {
      assert s[..i] == s;
    } else {
      KeysPrefix(s, i + 1, sec);
      KeysStep(s, i, sec);
    }
  }

  lemma KeysGrow(s: seq<Slot>, i: nat, sec: string)
    requires i < |s|
    ensures |SectionKeys(s[..i + 1], sec)| <= |SectionKeys(s, sec)|
    ensures SectionKeys(s[..i + 1], sec) ==
            SectionKeys(s[..i], sec) + if s[i].Used? && Matches(s[i].key, sec) then [s[i].key] else []
  {
    KeysStep(s, i, sec);
    KeysPrefix(s, i + 1, sec);
    hide SectionKeys, Matches;
  }

  /** `iniparser_getnsec`. */
  method GetNSec(d: Dictionary) returns (nsec: nat)
    requires d.Shape()
    ensures nsec == |Sections(d.Slots())|
  {
    nsec := 0;
    ghost var s := d.Slots();
    for i := 0 to d.size
      invariant nsec == |Sections(s[..i])|
    {
      SectionsStep(s, i);
      if d.key[i].Some? && ':' !in d.key[i].value {
        nsec := nsec + 1;
      }
    }
    assert s[..|s|] == s;
  }

  /** The loop of `iniparser_getsecname`: counts sections up to the n-th. */
  method SeekSection(d: Dictionary, n: nat, ghost s: seq<Slot>) returns (i: nat, foundsec: nat)
    requires d.Shape() && s == d.Slots()
    ensures foundsec <= n ==> foundsec == |Sections(s)|
    ensures foundsec > n ==> i < d.key.Length && n < |Sections(s)| && d.key[i] == Some(Sections(s)[n])
  {
    i, foundsec := 0, 0;
    assert Sections(s[..0]) == [];
    hide Sections;
    while i < d.size
      invariant i <= d.size && foundsec == |Sections(s[..i])| <= n
    {
      SectionsCount(s, i);
      if d.key[i].Some? && ':' !in d.key[i].value {
        foundsec := foundsec + 1;
        if foundsec > n {
          NthSection(s, i);
          return;
        }
      }
      i := i + 1;
    }
    assert s[..|s|] == s;
  }

  /** `iniparser_getsecname`: the n-th section in slot order. */
  method GetSecName(d: Dictionary, n: int) returns (name: Option<string>)
    requires d.Shape()
    ensures name == if 0 <= n < |Sections(d.Slots())| then Some(Sections(d.Slots())[n]) else None
  {
    if n < 0 {
      return None;
    }
    var i, foundsec := SeekSection(d, n, d.Slots());
    name := if foundsec <= n then None else d.key[i];
  }

  /** `iniparser_find_entry`, through `iniparser_getstring`. */
  method FindEntry(d: Dictionary, name: string) returns (found: bool)
    requires d.Valid()
    ensures found == Found(d.Slots(), name)
  {
    var p := d.Get(Lower(Take(name, NAME_MAX)), InvalidKey);
    found := p != InvalidKey;
  }

  /** The counting loop of `iniparser_getsecnkeys`. */
  method CountMatches(d: Dictionary, keym: string) returns (nkeys: nat)
    requires d.Shape()
    ensures nkeys == |SectionKeys(d.Slots(), keym)|
  {
    nkeys := 0;
    ghost var s := d.Slots();
    for j := 0 to d.size
      invariant nkeys == |SectionKeys(s[..j], keym)|
    {
      KeysStep(s, j, keym);
      if d.key[j].Some? && Matches(d.key[j].value, keym) {
        nkeys := nkeys + 1;
      }
    }
    assert s[..|s|] == s;
  }

  /** `iniparser_getsecnkeys`. The name must fit the buffer the colon is put into. */
  method GetSecNKeys(d: Dictionary, sec: string) returns (nkeys: nat)
    requires d.Valid() && |sec| <= NAME_MAX
    ensures nkeys == KeyCount(d.Slots(), sec)
  {
    nkeys := 0;
    var found := FindEntry(d, sec);
    if found {
      nkeys := CountMatches(d, Lower(sec));
    }
  }

  /** The filling loop of `iniparser_getseckeys`. */
  method FillMatches(d: Dictionary, keym: string, keys: array<string>)
    requires d.Shape() && keys.Length >= |SectionKeys(d.Slots(), keym)|
    requires keys as object != d.key && keys as object != d.val
    modifies keys
    ensures d.Slots() == old(d.Slots())
    ensures keys[..|SectionKeys(d.Slots(), keym)|] == SectionKeys(d.Slots(), keym)
    ensures keys[|SectionKeys(d.Slots(), keym)|..] == old(keys[|SectionKeys(d.Slots(), keym)|..])
  {
    var i := 0;
    ghost var s := d.Slots();
    ghost var was := keys[..];
    assert SectionKeys(s[..0], keym) == [];
    hide SectionKeys, Matches, Count, Distinct;
    for j := 0 to d.size
      invariant d.Slots() == s
      invariant i == |SectionKeys(s[..j], keym)| <= keys.Length
      invariant keys[..i] == SectionKeys(s[..j], keym)
      invariant keys[i..] == was[i..]
    {
      KeysGrow(s, j, keym);
      if d.key[j].Some? && Matches(d.key[j].value, keym) {
        PutKey(keys, i, d.key[j].value, was);
        i := i + 1;
      }
    }
    assert s[..|s|] == s;
  }

  method PutKey(keys: array<string>, i: nat, k: string, ghost was: seq<string>)
    requires i < keys.Length == |was| && keys[i..] == was[i..]
    modifies keys
    ensures keys[..i + 1] == old(keys[..i]) + [k] && keys[i + 1..] == was[i + 1..]
  {
    assert keys[i..][1..] == was[i..][1..];
    keys[i] := k;
  }

  /** `iniparser_getseckeys`: fills exactly `KeyCount` cells, with the keys of the
      section in slot order, and touches no other cell. */
  method GetSecKeys(d: Dictionary, sec: string, keys: array<string>) returns (ok: bool)
    requires d.Valid() && |sec| <= NAME_MAX
    requires keys.Length >= KeyCount(d.Slots(), sec)
    requires keys as object != d.key && keys as object != d.val
    modifies keys
    ensures d.Slots() == old(d.Slots()) && ok == Found(d.Slots(), sec)
    ensures keys[..KeyCount(d.Slots(), sec)] == if ok then SectionKeys(d.Slots(), Lower(sec)) else []
    ensures keys[KeyCount(d.Slots(), sec)..] == old(keys[KeyCount(d.Slots(), sec)..])
  {
    ok := FindEntry(d, sec);
    if ok {
      FillMatches(d, Lower(sec), keys);
    }
  }

  // ----- What the scans mean together

  /** A section name matches exactly the entries that belong to it, so no entry
      counts for two sections. */
  lemma MatchesIffSectionOf(k: string, sec: string)
    requires IsSection(sec)
    ensures Matches(k, sec) <==> !IsSection(k) && SectionOf(k) == sec
  {
    if Matches(k, sec) {
      assert k[|sec|] == (sec + ":")[|sec|] == ':';
      assert forall i :: 0 <= i < |sec| ==> k[i] == (sec + ":")[i];
      SpanNotIs(k, ":", |sec|);
    }
    if !IsSection(k) && SectionOf(k) == sec {
      assert k[..|sec| + 1] == sec + ":";
    }
  }

  lemma {:induction false} SectionsAre(s: seq<Slot>)
    ensures forall k :: k in Sections(s) <==> IsSection(k) && Find(s, k) < |s|
  {
    if s != [] {
      var p, x := s[..|s| - 1], s[|s| - 1];
      SectionsAre(p);
      forall k ensures k in Sections(s) <==> IsSection(k) && Find(s, k) < |s| {
        assert Find(p, k) < |p| ==> s[Find(p, k)] == p[Find(p, k)];
        assert Find(s, k) < |p| ==> s[Find(s, k)] == p[Find(s, k)];
      }
    }
  }

  ghost predicate NoRepeats(ks: seq<string>) {
    forall i, j :: 0 <= i < j < |ks| ==> ks[i] != ks[j]
  }

  lemma {:induction false} SectionsNoRepeats(s: seq<Slot>)
    requires Distinct(s)
    ensures NoRepeats(Sections(s))
  {
    if s != [] {
      var p, x := s[..|s| - 1], s[|s| - 1];
      SectionsNoRepeats(p);
      SectionsAre(p);
      forall k | k in Sections(p) ensures x.Used? ==> k != x.key {
        assert s[Find(p, k)] == p[Find(p, k)];
      }
    }
  }

  function SumKeys(s: seq<Slot>, secs: seq<string>): nat {
    if secs == [] then 0
    else |SectionKeys(s, secs[0])| + SumKeys(s, secs[1..])
  }

  /** The total of `iniparser_getsecnkeys` over a list of sections. */
  function SumKeyCounts(s: seq<Slot>, secs: seq<string>): nat {
    if secs == [] then 0
    else KeyCount(s, secs[0]) + SumKeyCounts(s, secs[1..])
  }

  /** The entries whose section is not in `secs`. */
  function Orphans(s: seq<Slot>, secs: seq<string>): nat {
    if s == [] then 0
    else
      var x := s[|s| - 1];
      Orphans(s[..|s| - 1], secs) + if x.Used? && !IsSection(x.key) && SectionOf(x.key) !in secs then 1 else 0
  }

  /** One more slot adds to the count of its own section only. */
  lemma {:induction false} SumKeysStep(s: seq<Slot>, secs: seq<string>)
    requires s != [] && NoRepeats(secs) && forall k :: k in secs ==> IsSection(k)
    ensures var x := s[|s| - 1];
            SumKeys(s, secs) == SumKeys(s[..|s| - 1], secs)
              + if x.Used? && !IsSection(x.key) && SectionOf(x.key) in secs then 1 else 0
  {
    if secs != [] {
      var x := s[|s| - 1];
      assert forall i :: 0 <= i < |secs| - 1 ==> secs[1..][i] == secs[i + 1];
      SumKeysStep(s, secs[1..]);
      if x.Used? {
        assert secs[0] !in secs[1..];
        MatchesIffSectionOf(x.key, secs[0]);
        assert forall q :: q in secs <==> q == secs[0] || q in secs[1..];
      }
    }
  }

  lemma {:induction false} SumKeysEmpty(secs: seq<string>)
    ensures SumKeys([], secs) == 0
  {
    if secs != [] {
      SumKeysEmpty(secs[1..]);
    }
  }

  lemma {:induction false} SplitAgainst(s: seq<Slot>, secs: seq<string>)
    requires NoRepeats(secs) && forall k :: k in secs ==> IsSection(k)
    ensures Count(s) == |Sections(s)| + SumKeys(s, secs) + Orphans(s, secs)
  {
    if s == [] {
      SumKeysEmpty(secs);
    } else {
      SplitAgainst(s[..|s| - 1], secs);
      SumKeysStep(s, secs);
    }
  }

  /** Every stored key is lower-case and fits the name buffers. */
  ghost predicate Plain(s: seq<Slot>) {
    forall i :: 0 <= i < |s| && s[i].Used? ==> IsLower(s[i].key) && |s[i].key| <= 1024
  }

  lemma PlainKeyCount(s: seq<Slot>, sec: string)
    requires Plain(s) && Find(s, sec) < |s|
    ensures KeyCount(s, sec) == |SectionKeys(s, sec)|
  {
    LowerIsLower(sec);
  }

  lemma {:induction false} PlainSum(s: seq<Slot>, secs: seq<string>)
    requires Plain(s) && forall k :: k in secs ==> Find(s, k) < |s|
    ensures SumKeyCounts(s, secs) == SumKeys(s, secs)
  {
    if secs != [] {
      PlainKeyCount(s, secs[0]);
      PlainSum(s, secs[1..]);
    }
  }

  /** The entries split exactly: sections, keys counted by `getsecnkeys`, and
      entries whose section entry is absent. */
  lemma EntriesSplit(s: seq<Slot>)
    requires Distinct(s) && Plain(s)
    ensures Count(s) == |Sections(s)| + SumKeyCounts(s, Sections(s)) + Orphans(s, Sections(s))
  {
    SectionsAre(s);
    SectionsNoRepeats(s);
    SplitAgainst(s, Sections(s));
    PlainSum(s, Sections(s));
  }

  // ----- Section order over runs without deletion

  function OnlySections(ks: seq<string>): seq<string> {
    if ks == [] then []
    else OnlySections(ks[..|ks| - 1]) + if IsSection(ks[|ks| - 1]) then [ks[|ks| - 1]] else []
  }

  lemma {:induction false} SectionsOfPacked(s: seq<Slot>, ks: seq<string>)
    requires Packed(s, ks)
    ensures Sections(s) == OnlySections(ks)
  {
    if s != [] {
      var p := s[..|s| - 1];
      if |ks| == |s| {
        assert Packed(p, ks[..|ks| - 1]);
        SectionsOfPacked(p, ks[..|ks| - 1]);
      } else {
        assert Packed(p, ks);
        SectionsOfPacked(p, ks);
      }
    }
  }

  /** After any run of `dictionary_set` calls, `iniparser_getsecname` lists the
      sections in the order in which they were first set. */
  lemma SectionsFirstSeen(size: nat, sets: seq<Pair>)
    requires size > 0
    ensures Sections(SetAll(Frees(size), sets)) == OnlySections(FirstSeen(sets))
  {
    InsertionOrder(size, sets);
    SectionsOfPacked(SetAll(Frees(size), sets), FirstSeen(sets));
  }
}

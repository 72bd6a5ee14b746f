/** Saving a loaded dump writes the same file again, byte for byte. */
module IniStable {
  import opened Options
  import opened Slots
  import opened DictionaryRuns
  import opened Text
  import opened IniLoad
  import opened IniQuery
  import opened IniDump
  import opened IniRoundTrip

  // ----- Loading distinct keys lists them in order

  function Firsts(sets: seq<Pair>): (ks: seq<string>)
    ensures |ks| == |sets| && forall i :: 0 <= i < |sets| ==> ks[i] == sets[i].0
  {
    seq(|sets|, i requires 0 <= i < |sets| => sets[i].0)
  }

  /** Slot i holds call i; all further slots are free. */
  ghost predicate Lists(t: seq<Slot>, sets: seq<Pair>) {
    && |sets| <= |t|
    && (forall i :: 0 <= i < |sets| ==> t[i] == Used(sets[i].0, sets[i].1))
    && (forall i :: |sets| <= i < |t| ==> t[i].Free?)
  }

  lemma NewKey(t: seq<Slot>, ks: seq<string>, k: string, v: Value)
    requires Packed(t, ks) && |t| > 0 && k !in ks
    ensures |ks| < |Grown(t)| && SetSlots(t, k, v) == Grown(t)[|ks| := Used(k, v)]
  {
    PackedCount(t, ks);
    PackedFind(t, ks, k);
    GrownHasRoom(t);
    PackedInsert(Grown(t), ks, k, v);
    hide Packed, Probe, Count, Find, Grown;
  }

  lemma ListsStep(t: seq<Slot>, sets: seq<Pair>, p: Pair)
    requires Lists(t, sets) && |t| > 0 && p.0 !in Firsts(sets)
    ensures Lists(SetSlots(t, p.0, p.1), sets + [p]) && |SetSlots(t, p.0, p.1)| >= |t|
  {
    assert Packed(t, Firsts(sets));
    NewKey(t, Firsts(sets), p.0, p.1);
    hide SetSlots, Packed, Grown, Firsts;
  }

  lemma FirstsInit(sets: seq<Pair>)
    requires sets != [] && NoRepeats(Firsts(sets))
    ensures var init := sets[..|sets| - 1];
            NoRepeats(Firsts(init)) && sets[|sets| - 1].0 !in Firsts(init)
  {
    var init := sets[..|sets| - 1];
    assert forall i :: 0 <= i < |init| ==> Firsts(init)[i] == Firsts(sets)[i];
    assert sets[|sets| - 1].0 == Firsts(sets)[|init|];
  }

  lemma {:induction false} SetAllLists(size: nat, sets: seq<Pair>)
    requires size > 0 && NoRepeats(Firsts(sets))
    ensures Lists(SetAll(Frees(size), sets), sets) && |SetAll(Frees(size), sets)| >= size
  {
    if sets == [] {
      return;
    }
    var init, p := sets[..|sets| - 1], sets[|sets| - 1];
    FirstsInit(sets);
    hide Lists, SetSlots, Firsts, NoRepeats, Frees;
    SetAllLists(size, init);
    ListsStep(SetAll(Frees(size), init), init, p);
    assert init + [p] == sets;
  }

  // ----- The calls of a dump have distinct keys

  lemma {:induction false} EntryKeysDistinct(s: seq<Slot>, sec: string)
    requires Distinct(s)
    ensures NoRepeats(Firsts(EntrySets(s, sec)))
  {
    if s != [] {
      var p, x := s[..|s| - 1], s[|s| - 1];
      EntryKeysDistinct(p, sec);
      EntrySetsAre(p, sec);
      forall i | 0 <= i < |EntrySets(p, sec)| && x.Used? ensures EntrySets(p, sec)[i].0 != x.key {
        assert EntrySets(p, sec)[i] in EntrySets(p, sec);
      }
    }
  }

  /** The section that a call belongs to. */
  function Home(k: string): string {
    if IsSection(k) then k else SectionOf(k)
  }

  lemma EntryHomes(s: seq<Slot>, sec: string, i: nat)
    requires IsSection(sec) && i < |EntrySets(s, sec)|
    ensures !IsSection(EntrySets(s, sec)[i].0) && Home(EntrySets(s, sec)[i].0) == sec
  {
    EntrySetsAre(s, sec);
    assert EntrySets(s, sec)[i] in EntrySets(s, sec);
    MatchesIffSectionOf(EntrySets(s, sec)[i].0, sec);
  }

  lemma {:induction false} DumpHomes(s: seq<Slot>, secs: seq<string>, i: nat)
    requires (forall j :: 0 <= j < |secs| ==> IsSection(secs[j])) && i < |DumpSets(s, secs)|
    ensures Home(DumpSets(s, secs)[i].0) in secs
  {
    if secs != [] {
      var init, sec := secs[..|secs| - 1], secs[|secs| - 1];
      var a := DumpSets(s, init);
      if i < |a| {
        DumpHomes(s, init, i);
      } else if i > |a| {
        EntryHomes(s, sec, i - |a| - 1);
      }
    }
  }

  /** Two calls of a dump have different keys: different sections, a section and an
      entry, two entries of one section, or two calls of an earlier section. */
  lemma KeysDiffer(s: seq<Slot>, secs: seq<string>, i: nat, j: nat)
    requires secs != [] && NoRepeats(secs) && i < j < |DumpSets(s, secs)|
    requires forall k :: 0 <= k < |secs| ==> IsSection(secs[k])
    requires NoRepeats(Firsts(DumpSets(s, secs[..|secs| - 1]))) && NoRepeats(Firsts(EntrySets(s, secs[|secs| - 1])))
    ensures DumpSets(s, secs)[i].0 != DumpSets(s, secs)[j].0
  {
    var init, sec := secs[..|secs| - 1], secs[|secs| - 1];
    var a, b, all := DumpSets(s, init), EntrySets(s, sec), DumpSets(s, secs);
    hide DumpSets, EntrySets, IsSection;
    DumpParts(s, secs, i);
    DumpParts(s, secs, j);
    if j < |a| {
      assert Firsts(a)[i] == a[i].0 && Firsts(a)[j] == a[j].0;
    } else if i > |a| {
      assert Firsts(b)[i - |a| - 1] == b[i - |a| - 1].0 && Firsts(b)[j - |a| - 1] == b[j - |a| - 1].0;
    }
    LastOnce(secs, sec);
  }

  /** Where a call of a dump comes from, and what section it belongs to. */
  lemma DumpParts(s: seq<Slot>, secs: seq<string>, i: nat)
    requires secs != [] && i < |DumpSets(s, secs)| && forall k :: 0 <= k < |secs| ==> IsSection(secs[k])
    ensures var init, sec := secs[..|secs| - 1], secs[|secs| - 1];
            var a, b, all := DumpSets(s, init), EntrySets(s, sec), DumpSets(s, secs);
            && (i < |a| ==> all[i] == a[i] && Home(all[i].0) in init)
            && (i == |a| ==> all[i].0 == sec && Home(all[i].0) == sec && IsSection(all[i].0))
            && (i > |a| ==> i - |a| - 1 < |b| && all[i] == b[i - |a| - 1])
            && (i > |a| ==> Home(all[i].0) == sec && !IsSection(all[i].0))
  {
    var init, sec := secs[..|secs| - 1], secs[|secs| - 1];
    var a := DumpSets(s, init);
    if i < |a| {
      DumpHomes(s, init, i);
    } else if i > |a| {
      EntryHomes(s, sec, i - |a| - 1);
    }
    hide IsSection, EntrySets, SectionOf;
  }

  lemma {:induction false} DumpKeysDistinct(s: seq<Slot>, secs: seq<string>)
    requires Distinct(s) && NoRepeats(secs) && forall j :: 0 <= j < |secs| ==> IsSection(secs[j])
    ensures NoRepeats(Firsts(DumpSets(s, secs)))
  {
    if secs == [] {
      return;
    }
    hide DumpSets, EntrySets, IsSection, Distinct;
    var init := secs[..|secs| - 1];
    DumpKeysDistinct(s, init);
    EntryKeysDistinct(s, secs[|secs| - 1]);
    forall i, j | 0 <= i < j < |DumpSets(s, secs)|
      ensures Firsts(DumpSets(s, secs))[i] != Firsts(DumpSets(s, secs))[j]
    {
      KeysDiffer(s, secs, i, j);
    }
  }

  // ----- What the printer makes of the listed calls

  function AsSlot(p: Pair): Slot {
    Used(p.0, p.1)
  }

  function SectionsOf(sets: seq<Pair>): seq<string> {
    if sets == [] then [] else SectionsOf(sets[..|sets| - 1]) + SectionAt(AsSlot(sets[|sets| - 1]))
  }

  function LinesOf(sets: seq<Pair>, sec: string): string {
    if sets == [] then "" else LinesOf(sets[..|sets| - 1], sec) + LineAt(AsSlot(sets[|sets| - 1]), sec)
  }

  lemma {:induction false} ListedPrints(t: seq<Slot>, sets: seq<Pair>, sec: string)
    requires Lists(t, sets)
    ensures Sections(t) == SectionsOf(sets) && EntryLines(t, sec) == LinesOf(sets, sec)
  {
    if t != [] {
      var p := t[..|t| - 1];
      if |sets| == |t| {
        assert Lists(p, sets[..|sets| - 1]);
        ListedPrints(p, sets[..|sets| - 1], sec);
      } else {
        assert Lists(p, sets);
        ListedPrints(p, sets, sec);
      }
    }
  }

  lemma {:induction false} PrintsBoth(a: seq<Pair>, b: seq<Pair>, sec: string)
    ensures SectionsOf(a + b) == SectionsOf(a) + SectionsOf(b)
    ensures LinesOf(a + b, sec) == LinesOf(a, sec) + LinesOf(b, sec)
  {
    hide SectionAt, LineAt, AsSlot;
    if b == [] {
      assert a + b == a;
    } else {
      assert (a + b)[..|a + b| - 1] == a + b[..|b| - 1];
      PrintsBoth(a, b[..|b| - 1], sec);
    }
  }

  /** The entries of `home` print their lines in `home` and nothing elsewhere. */
  lemma {:induction false} EntriesPrint(s: seq<Slot>, home: string, sec: string)
    requires IsSection(home) && IsSection(sec)
    ensures SectionsOf(EntrySets(s, home)) == []
    ensures LinesOf(EntrySets(s, home), sec) == if home == sec then EntryLines(s, sec) else ""
  {
    if s != [] {
      var p, x := s[..|s| - 1], s[|s| - 1];
      EntriesPrint(p, home, sec);
      PrintsBoth(EntrySets(p, home), PairAt(x, home), sec);
      if x.Used? {
        MatchesIffSectionOf(x.key, home);
        MatchesIffSectionOf(x.key, sec);
      }
      OnePrints((if x.Used? then (x.key, x.val) else ("", None)), sec);
    }
  }

  lemma OnePrints(p: Pair, sec: string)
    ensures SectionsOf([p]) == SectionAt(AsSlot(p)) && LinesOf([p], sec) == LineAt(AsSlot(p), sec)
  {
    assert [p][..0] == [];
  }

  /** A section and its entries, as one group of calls. */
  function Group(s: seq<Slot>, home: string): seq<Pair> {
    [(home, None)] + EntrySets(s, home)
  }

  lemma GroupPrints(s: seq<Slot>, home: string, sec: string)
    requires IsSection(home) && IsSection(sec)
    ensures SectionsOf(Group(s, home)) == [home]
    ensures LinesOf(Group(s, home), sec) == if home == sec then EntryLines(s, sec) else ""
  {
    EntriesPrint(s, home, sec);
    PrintsBoth([(home, None)], EntrySets(s, home), sec);
    OnePrints((home, None), sec);
    MatchesIffSectionOf(home, sec);
    hide SectionsOf, LinesOf, EntryLines, EntrySets, EntryLine, Matches;
  }

  lemma DumpStep(s: seq<Slot>, secs: seq<string>)
    requires secs != []
    ensures DumpSets(s, secs) == DumpSets(s, secs[..|secs| - 1]) + Group(s, secs[|secs| - 1])
  {
  }

  lemma DumpSectionsStep(s: seq<Slot>, secs: seq<string>)
    requires secs != [] && IsSection(secs[|secs| - 1])
    requires SectionsOf(DumpSets(s, secs[..|secs| - 1])) == secs[..|secs| - 1]
    ensures SectionsOf(DumpSets(s, secs)) == secs
  {
    hide *;
    var init, home := secs[..|secs| - 1], secs[|secs| - 1];
    DumpStep(s, secs);
    PrintsBoth(DumpSets(s, init), Group(s, home), home);
    GroupPrints(s, home, home);
    assert secs == init + [home];
  }

  lemma {:induction false} DumpSections(s: seq<Slot>, secs: seq<string>)
    requires forall j :: 0 <= j < |secs| ==> IsSection(secs[j])
    ensures SectionsOf(DumpSets(s, secs)) == secs
  {
    if secs == [] {
      return;
    }
    hide *;
    DumpSections(s, secs[..|secs| - 1]);
    DumpSectionsStep(s, secs);
  }

  /** A section that is not listed prints no line, a listed one all its lines, once. */
  lemma {:induction false} DumpLines(s: seq<Slot>, secs: seq<string>, sec: string)
    requires NoRepeats(secs) && IsSection(sec) && forall j :: 0 <= j < |secs| ==> IsSection(secs[j])
    ensures LinesOf(DumpSets(s, secs), sec) == if sec in secs then EntryLines(s, sec) else ""
  {
    if secs == [] {
      return;
    }
    hide SectionsOf, LinesOf, EntryLines, Group, DumpSets, IsSection;
    var init, home := secs[..|secs| - 1], secs[|secs| - 1];
    DumpLines(s, init, sec);
    DumpStep(s, secs);
    PrintsBoth(DumpSets(s, init), Group(s, home), sec);
    GroupPrints(s, home, sec);
    LastOnce(secs, sec);
  }

  lemma LastOnce(secs: seq<string>, sec: string)
    requires secs != [] && NoRepeats(secs)
    ensures var init, home := secs[..|secs| - 1], secs[|secs| - 1];
            (sec in secs <==> sec in init || sec == home) && !(sec in init && sec == home)
  {
    assert secs == secs[..|secs| - 1] + [secs[|secs| - 1]];
  }

  lemma {:induction false} TextsAgree(s: seq<Slot>, t: seq<Slot>, secs: seq<string>)
    requires forall j :: 0 <= j < |secs| ==> SectionText(t, secs[j]) == SectionText(s, secs[j])
    ensures SectionTexts(t, secs) == SectionTexts(s, secs)
  {
    hide SectionText;
    if secs != [] {
      TextsAgree(s, t, secs[..|secs| - 1]);
    }
  }

  /** Dump, load, dump: the second file equals the first. */
  lemma DumpIsStable(s: seq<Slot>)
    requires Distinct(s) && Printable(s)
    ensures LoadSets(Dump(s)).Some?
    ensures Dump(SetAll(Frees(MIN_SIZE), LoadSets(Dump(s)).value)) == Dump(s)
  {
    var secs := Sections(s);
    var sets := DumpSets(s, secs);
    var t := SetAll(Frees(MIN_SIZE), sets);
    DumpLoads(s);
    SectionsAre(s);
    SectionsNoRepeats(s);
    forall j | 0 <= j < |secs| ensures IsSection(secs[j]) {
      assert secs[j] in secs;
    }
    DumpKeysDistinct(s, secs);
    SetAllLists(MIN_SIZE, sets);
    ListedPrints(t, sets, secs[0]);
    DumpSections(s, secs);
    SectionsAre(t);
    hide Dump, SetAll;
    forall j | 0 <= j < |secs| ensures SectionText(t, secs[j]) == SectionText(s, secs[j]) {
      SameSection(s, t, sets, secs, secs[j]);
    }
    TextsAgree(s, t, secs);
    SameDump(s, t);
  }

  lemma SameSection(s: seq<Slot>, t: seq<Slot>, sets: seq<Pair>, secs: seq<string>, sec: string)
    requires Printable(s) && secs == Sections(s) == Sections(t) && sec in secs
    requires NoRepeats(secs) && forall j :: 0 <= j < |secs| ==> IsSection(secs[j])
    requires sets == DumpSets(s, secs) && Lists(t, sets)
    ensures SectionText(t, sec) == SectionText(s, sec)
  {
    PrintableSection(s, sec);
    SectionsAre(t);
    LowerIsLower(sec);
    ListedPrints(t, sets, sec);
    DumpLines(s, secs, sec);
  }

  lemma SameDump(s: seq<Slot>, t: seq<Slot>)
    requires Sections(s) == Sections(t) != [] && SectionTexts(t, Sections(s)) == SectionTexts(s, Sections(s))
    ensures Dump(t) == Dump(s)
  {
  }
}

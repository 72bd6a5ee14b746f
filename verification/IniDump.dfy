/** The INI printer. */
module IniDump {
  import opened Options
  import opened Slots
  import opened Dictionary
  import opened Text
  import opened IniQuery

  function Spaces(n: int): (s: string)
    ensures |s| == (if n < 0 then 0 else n) && forall i :: 0 <= i < |s| ==> s[i] == ' '
  {
    seq(if n < 0 then 0 else n, _ => ' ')
  }

  /** "%-30s = %s\n", with nothing printed for a NULL value. */
  function EntryLine(name: string, v: Value): string {
    name + Spaces(30 - |name|) + " = " + (if v.Some? then v.value else "") + "\n"
  }

  /** The line of one slot inside section `sec`. */
  function LineAt(x: Slot, sec: string): string {
    if x.Used? && Matches(x.key, sec) then EntryLine(x.key[|sec| + 1..], x.val) else ""
  }

  function EntryLines(s: seq<Slot>, sec: string): string {
    if s == [] then "" else EntryLines(s[..|s| - 1], sec) + LineAt(s[|s| - 1], sec)
  }

  function SectionText(s: seq<Slot>, sec: string): string {
    if Found(s, sec) then "\n[" + sec + "]\n" + EntryLines(s, sec) + "\n" else ""
  }

  function SectionTexts(s: seq<Slot>, secs: seq<string>): string {
    if secs == [] then "" else SectionTexts(s, secs[..|secs| - 1]) + SectionText(s, secs[|secs| - 1])
  }

  /** "%s = %s\n" for every slot; the C library prints a NULL string as "(null)". */
  function FlatLine(k: string, v: Value): string {
    k + " = " + (if v.Some? then v.value else "(null)") + "\n"
  }

  function FlatLineAt(x: Slot): string {
    if x.Used? then FlatLine(x.key, x.val) else ""
  }

  function FlatLines(s: seq<Slot>): string {
    if s == [] then "" else FlatLines(s[..|s| - 1]) + FlatLineAt(s[|s| - 1])
  }

  /** The text of a whole dump. */
  function Dump(s: seq<Slot>): string {
    if Sections(s) == [] then FlatLines(s) else SectionTexts(s, Sections(s)) + "\n"
  }

  /** An entry is printed with its sign in column 31, or after a longer name, and one blank
      on either side of it. */
  lemma SignColumn(name: string, v: Value)
    ensures var line, at := EntryLine(name, v), if |name| <= 30 then 31 else |name| + 1;
            && |line| > at + 1 && line[..|name|] == name
            && (forall i :: |name| <= i < at ==> line[i] == ' ')
            && line[at..at + 2] == "= "
            && line[at + 2..] == (if v.Some? then v.value else "") + "\n"
  {
    var value := (if v.Some? then v.value else "") + "\n";
    var front := name + Spaces(30 - |name|);
    assert EntryLine(name, v) == front + " = " + value;
    hide EntryLine;
  }

  lemma ExampleLine()
    ensures EntryLine("k", Some("v")) == "k                              = v\n"
  {
    assert Spaces(29) == "                             ";
    hide Spaces;
    assert "k" + "                             " + " = " + "v" + "\n" == "k                              = v\n";
  }

  lemma TwoSlots(x: Slot, y: Slot, sec: string)
    ensures Sections([x, y]) == SectionAt(x) + SectionAt(y)
    ensures EntryLines([x, y], sec) == LineAt(x, sec) + LineAt(y, sec)
  {
    hide SectionAt, LineAt;
    assert [x, y][..1] == [x] && [x][..0] == [];
    assert Sections([x]) == SectionAt(x) && EntryLines([x], sec) == LineAt(x, sec);
  }

  lemma ExampleMatches()
    ensures !Matches("a", "a") && Matches("a:k", "a") && "a:k"[2..] == "k"
    ensures IsSection("a") && !IsSection("a:k")
  {
    assert "a" + ":" == "a:";
    assert "a:k"[1] == ':';
  }

  lemma OneSection(s: seq<Slot>, sec: string, lines: string)
    requires Sections(s) == [sec] && Found(s, sec) && EntryLines(s, sec) == lines
    ensures Dump(s) == "\n[" + sec + "]\n" + lines + "\n" + "\n"
  {
    hide Sections, EntryLines, FlatLines, Found;
    assert [sec][..0] == [];
    assert SectionTexts(s, [sec]) == SectionText(s, sec);
  }

  /** A whole dump, of one section with one entry. */
  lemma DumpExample()
    ensures Dump([Used("a", None), Used("a:k", Some("v"))]) ==
            "\n[" + "a" + "]\n" + "k                              = v\n" + "\n" + "\n"
  {
    ExampleMatches();
    ExampleLine();
    hide Matches, IsSection, EntryLine, Dump, Spaces, Found, Sections, EntryLines;
    var x, y := Used("a", None), Used("a:k", Some("v"));
    LowerA([x, y]);
    TwoSlots(x, y, "a");
    assert LineAt(x, "a") == "" && LineAt(y, "a") == EntryLine("k", Some("v"));
    assert "" + EntryLine("k", Some("v")) == EntryLine("k", Some("v"));
    assert SectionAt(x) == ["a"] && SectionAt(y) == [];
    OneSection([x, y], "a", EntryLine("k", Some("v")));
  }

  lemma LowerA(s: seq<Slot>)
    requires s != [] && s[0] == Used("a", None)
    ensures Found(s, "a")
  {
    assert Lower(Take("a", NAME_MAX)) == "a";
  }

  /** Without a section, keys and values are printed as they are. */
  lemma FlatExample()
    ensures Dump([Used("a:k", Some("v"))]) == "a:k = v\n"
    ensures Dump([Used("a:k", None)]) == "a:k = (null)\n"
  {
    ExampleMatches();
    hide IsSection;
    FlatOne("a:k", Some("v"));
    FlatOne("a:k", None);
    assert "a:k" + " = " + "v" + "\n" == "a:k = v\n";
    assert "a:k" + " = " + "(null)" + "\n" == "a:k = (null)\n";
  }

  lemma FlatOne(k: string, v: Value)
    requires !IsSection(k)
    ensures Dump([Used(k, v)]) == FlatLine(k, v)
  {
    var t := [Used(k, v)];
    assert t[..0] == [];
    hide IsSection, FlatLine;
    assert Sections(t) == [];
    assert FlatLines(t) == "" + FlatLine(k, v) == FlatLine(k, v);
  }

  // ----- The printing loops

  lemma LinesStep(s: seq<Slot>, i: nat, sec: string)
    requires i < |s|
    ensures EntryLines(s[..i + 1], sec) == EntryLines(s[..i], sec) + LineAt(s[i], sec)
    ensures FlatLines(s[..i + 1]) == FlatLines(s[..i]) + FlatLineAt(s[i])
  {
    assert s[..i + 1][..i] == s[..i];
  }

  method PrintMatches(d: Dictionary, sec: string) returns (out: string)
    requires d.Shape()
    ensures out == EntryLines(d.Slots(), sec)
  {
    out := "";
    ghost var s := d.Slots();
    for j := 0 to d.size
      invariant out == EntryLines(s[..j], sec)
    {
      LinesStep(s, j, sec);
      if d.key[j].Some? && Matches(d.key[j].value, sec) {
        out := out + EntryLine(d.key[j].value[|sec| + 1..], d.val[j]);
      }
    }
    assert s[..|s|] == s;
  }

  /** `iniparser_dumpsection_ini`: the text it appends to the file. */
  method DumpSection(d: Dictionary, sec: string) returns (out: string)
    requires d.Valid() && |sec| < NAME_MAX
    ensures out == SectionText(d.Slots(), sec)
  {
    out := "";
    var found := FindEntry(d, sec);
    if found {
      var lines := PrintMatches(d, sec);
      out := "\n[" + sec + "]\n" + lines + "\n";
    }
  }

  method DumpFlat(d: Dictionary) returns (out: string)
    requires d.Shape()
    ensures out == FlatLines(d.Slots())
  {
    out := "";
    ghost var s := d.Slots();
    for i := 0 to d.size
      invariant out == FlatLines(s[..i])
    {
      LinesStep(s, i, "");
      if d.key[i].Some? {
        out := out + FlatLine(d.key[i].value, d.val[i]);
      }
    }
    assert s[..|s|] == s;
  }

  lemma TextsStep(s: seq<Slot>, secs: seq<string>, i: nat)
    requires i < |secs|
    ensures SectionTexts(s, secs[..i + 1]) == SectionTexts(s, secs[..i]) + SectionText(s, secs[i])
  {
    assert secs[..i + 1][..i] == secs[..i];
  }

  /** `iniparser_dump_ini`: the whole text of the file. Section names must fit the
      buffer that `iniparser_dumpsection_ini` builds "section:" in. */
  method DumpIni(d: Dictionary) returns (out: string)
    requires d.Valid()
    requires forall i :: 0 <= i < |Sections(d.Slots())| ==> |Sections(d.Slots())[i]| < NAME_MAX
    ensures out == Dump(d.Slots())
  {
    var nsec := GetNSec(d);
    if nsec < 1 {
      out := DumpFlat(d);
      return;
    }
    out := DumpSections(d, nsec);
    out := out + "\n";
  }

  method DumpNth(d: Dictionary, i: nat) returns (out: string)
    requires d.Valid() && i < |Sections(d.Slots())|
    requires |Sections(d.Slots())[i]| < NAME_MAX
    ensures out == SectionText(d.Slots(), Sections(d.Slots())[i])
  {
    var secname := GetSecName(d, i);
    out := DumpSection(d, secname.value);
  }

  method DumpSections(d: Dictionary, nsec: nat) returns (out: string)
    requires d.Valid() && nsec == |Sections(d.Slots())|
    requires forall i :: 0 <= i < nsec ==> |Sections(d.Slots())[i]| < NAME_MAX
    ensures out == SectionTexts(d.Slots(), Sections(d.Slots()))
  {
    out := "";
    hide SectionText;
    for i := 0 to nsec
      invariant out == SectionTexts(d.Slots(), Sections(d.Slots())[..i])
    {
      TextsStep(d.Slots(), Sections(d.Slots()), i);
      var part := DumpNth(d, i);
      out := out + part;
    }
    assert Sections(d.Slots())[..nsec] == Sections(d.Slots());
  }
}

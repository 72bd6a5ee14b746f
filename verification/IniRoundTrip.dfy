/** Loading a dump gives back the dictionary. */
module IniRoundTrip {
  import opened Options
  import opened Slots
  import opened DictionaryRuns
  import opened Text
  import opened IniLoad
  import opened IniQuery
  import opened IniDump

  // ----- The dictionaries that survive

  predicate NoneOf(s: string, cs: string) {
    forall i :: 0 <= i < |s| ==> s[i] !in cs
  }

  /** Printed on one line, as one C string. */
  predicate OneLine(s: string) {
    NoneOf(s, "\n\0")
  }

  /** A section name that survives printing and parsing. */
  predicate GoodSection(k: string) {
    && k != "" && IsLower(k) && Trimmed(k) && NoneOf(k, "]") && OneLine(k)
    && |k| + 3 < 1024
  }

  /** A key that the parser takes as it stands. */
  predicate NameSurvives(name: string) {
    && name != "" && IsLower(name) && Trimmed(name) && NoneOf(name, "=")
    && name[0] !in "#;"
  }

  /** A quote, then something that is not the same quote; or two quotes and no more. */
  predicate Quoted(v: string) {
    |v| >= 2 && (v[0] == '"' || v[0] == '\'') && (v[1] != v[0] || |v| == 2)
  }

  /** A value that the parser takes as it stands: it has no outer white space, starts no
      comment, does not continue the line and is not unquoted. */
  predicate ValueSurvives(v: string) {
    Trimmed(v) && NoneOf(v, ";#") && !Quoted(v) && (v != "" ==> v[|v| - 1] != '\\')
  }

  /** The printed line starts and ends like a section header. */
  predicate LikeSection(name: string, v: string) {
    name != "" && name[0] == '[' && v != "" && v[|v| - 1] == ']'
  }

  /** `EntrySurvivesIff` shows that nothing less will do. */
  predicate EntrySurvives(name: string, v: string) {
    NameSurvives(name) && ValueSurvives(v) && !LikeSection(name, v)
  }

  /** A key and value whose printed line survives and fits the line buffer. */
  predicate GoodEntry(name: string, v: Value) {
    && v.Some? && OneLine(name) && OneLine(v.value) && EntrySurvives(name, v.value)
    && |EntryLine(name, v)| < 1024
  }

  /** Every section, and every entry of a stored section, survives. Nothing is asked
      of entries whose section is not stored: they are not printed. */
  ghost predicate Printable(s: seq<Slot>) {
    && Sections(s) != []
    && forall i :: 0 <= i < |s| && s[i].Used? ==> GoodSlot(s[i], Sections(s))
  }

  predicate GoodSlot(x: Slot, secs: seq<string>)
    requires x.Used?
  {
    if IsSection(x.key) then GoodSection(x.key)
    else SectionOf(x.key) in secs ==> GoodEntry(x.key[|SectionOf(x.key)| + 1..], x.val)
  }

  /** What a dump keeps of a map: section entries, with NULL values, and the entries
      whose section entry exists. */
  ghost function Kept(m: map<string, Value>): map<string, Value> {
    map k | k in m && (IsSection(k) || SectionOf(k) in m) :: if IsSection(k) then None else m[k]
  }

  // ----- One line of the file

  /** A line that fits the buffer is read whole and handled by one turn. */
  lemma ShortRead(st: State, body: string, rest: string)
    requires st.kept == "" && '\n' !in body && |body| + 1 < LINE_SIZE
    ensures ReadOnce(st, body + "\n" + rest) == Turn(st, body + "\n", false)
    ensures NextChunk(st, body + "\n" + rest) == body + "\n"
  {
    hide Turn;
    var line := body + "\n";
    var text := line + rest;
    assert text[|body|] == '\n';
    SpanNotIs(text, "\n", |body|);
    assert text[..|body| + 1] == line;
    assert NextChunk(st, text) == line && !HitEnd(text, line, LINE_SIZE);
  }

  /** A line that does not fit ends the loading. */
  lemma LongRead(st: State, body: string, rest: string)
    requires st.kept == "" && OneLine(body) && |body| + 1 >= LINE_SIZE
    ensures ReadOnce(st, body + "\n" + rest) == None
  {
    var text := body + "\n" + rest;
    assert text[|body|] == '\n' && forall i :: 0 <= i < |body| ==> text[i] == body[i];
    SpanNotIs(text, "\n", |body|);
    var chunk := body[..LINE_SIZE - 1];
    assert NextChunk(st, text) == chunk;
    LongChunk(st, chunk);
  }

  lemma LongChunk(st: State, chunk: string)
    requires st.kept == "" && OneLine(chunk) && |chunk| == LINE_SIZE - 1
    ensures Turn(st, chunk, false) == None
  {
    CStringSelf(chunk);
    assert "" + chunk == chunk;
    assert chunk[|chunk| - 1] != '\n';
    hide CString;
  }

  lemma LoadLine(st: State, body: string, st': State, rest: string)
    requires st.kept == "" == st'.kept && '\n' !in body && |body| + 1 < LINE_SIZE
    requires Turn(st, body + "\n", false) == Some(st')
    ensures LoadFrom(st, body + "\n" + rest) == LoadFrom(st', rest)
  {
    ShortRead(st, body, rest);
    hide Turn, ReadOnce, NextChunk;
    var line := body + "\n";
    assert (line + rest)[|line|..] == rest;
  }

  lemma CStringSelf(s: string)
    requires NoneOf(s, "\0")
    ensures CString(s) == s
  {
    SpanNotIs(s, "\0", |s|);
  }

  /** A line of a body, blanks and a newline: nothing is cut off, and trimming the
      end leaves the body. */
  lemma LineShape(body: string, blanks: string)
    requires body != "" && !IsSpace(body[|body| - 1]) && NoneOf(body, "\0")
    requires forall i :: 0 <= i < |blanks| ==> IsSpace(blanks[i])
    ensures var line := body + blanks + "\n";
            && CString("" + line) == line && RStrip(line) == body
            && |line| > 1 && line[|line| - 1] == '\n'
  {
    var white := blanks + "\n";
    assert body + blanks + "\n" == body + white;
    WhiteEnd(body, white);
    hide CString, RStrip, NoneOf, IsSpace;
    assert "" + (body + white) == body + white;
  }

  lemma WhiteEnd(body: string, white: string)
    requires body != "" && !IsSpace(body[|body| - 1]) && NoneOf(body, "\0")
    requires forall i :: 0 <= i < |white| ==> IsSpace(white[i])
    ensures CString(body + white) == body + white && RStrip(body + white) == body
  {
    var line := body + white;
    NoneOfBoth(body, white, "\0");
    CStringSelf(line);
    assert forall i :: |body| <= i < |line| ==> line[i] == white[i - |body|];
    RStripIs(line, |body|);
    assert line[..|body|] == body;
  }

  lemma ClassifyComplete(body: string, blanks: string)
    requires body != "" && !IsSpace(body[|body| - 1]) && body[|body| - 1] != '\\' && NoneOf(body, "\0")
    requires forall i :: 0 <= i < |blanks| ==> IsSpace(blanks[i])
    ensures Classify("", body + blanks + "\n", false) == Complete(body)
  {
    LineShape(body, blanks);
    hide CString, RStrip, NoneOf;
  }

  /** What a turn makes of a trimmed body followed by blanks. */
  lemma TurnComplete(st: State, body: string, blanks: string)
    requires st.kept == "" && body != "" && Trimmed(body) && body[|body| - 1] != '\\' && OneLine(body)
    requires forall i :: 0 <= i < |blanks| ==> IsSpace(blanks[i])
    ensures Turn(st, body + blanks + "\n", false) == Some(Apply(st, ParseLine(body, st.section)))
  {
    ClassifyComplete(body, blanks);
    assert st.(kept := "") == st;
  }

  lemma BlankLine(st: State, rest: string)
    requires st.kept == ""
    ensures LoadFrom(st, "\n" + rest) == LoadFrom(st, rest)
  {
    hide LoadFrom;
    CStringSelf("\n");
    assert st.kept + "\n" == "\n" == "" + "\n";
    LoadLine(st, "", st, rest);
  }

  // ----- Section lines

  /** Printing and parsing keeps the name of a section exactly when it is trimmed and
      lower-case and has no bracket. An empty one leaves the section buffer alone, so
      it needs a blank one. */
  predicate SectionSurvives(k: string, previous: string) {
    if k == "" then Strip(previous) == "" else IsLower(k) && Trimmed(k) && NoneOf(k, "]")
  }

  /** What the scan of a header finds: the name up to a bracket, if that is anything. */
  function Header(k: string, sec: string): string {
    var n := SpanNot(k, "]");
    if n == 0 then sec else k[..n]
  }

  lemma HeaderScan(k: string, sec: string)
    ensures ScanSection("[" + k + "]", sec) == Header(k, sec)
  {
    var line, n := "[" + k + "]", SpanNot(k, "]");
    assert (k + "]")[|k|] == ']';
    SpanNotIs(k + "]", "]", n);
    hide SpanNot;
    assert line[1..] == k + "]";
    assert line[1..1 + n] == line[1..][..n] == k[..n];
  }

  lemma ParseHeader(k: string, sec: string)
    ensures ParseLine("[" + k + "]", sec) == Section(Clean(Header(k, sec), |k| + 2))
  {
    hide Clean, Strip, QuotedEntry, ParseUnquoted, ScanSection, Header;
    var line := "[" + k + "]";
    assert line[0] == '[' && line[|line| - 1] == ']';
    StripTrimmed(line);
    HeaderScan(k, sec);
  }

  lemma CleanIs(name: string, len: nat)
    requires len > |name|
    ensures Clean(name, len) == Lower(Strip(name))
  {
  }

  lemma KeptIff(k: string)
    ensures Lower(Strip(k)) == k <==> IsLower(k) && Trimmed(k)
  {
    if IsLower(k) && Trimmed(k) {
      StripTrimmed(k);
      LowerIsLower(k);
    }
    if Lower(Strip(k)) == k {
      CleanShape(k);
    }
  }

  /** What `strstrip` and `strlwc` leave is trimmed and lower-case. */
  lemma CleanShape(k: string)
    ensures IsLower(Lower(Strip(k))) && Trimmed(Lower(Strip(k)))
  {
    StripShape(k);
  }

  lemma HeaderName(k: string, sec: string)
    requires NoneOf(sec, "]")
    ensures Clean(Header(k, sec), |k| + 2) == k <==> SectionSurvives(k, sec)
  {
    var n := SpanNot(k, "]");
    if n == 0 {
      EmptyHeader(k, sec);
    } else if n < |k| {
      CutHeader(k, n);
    } else {
      assert k[..n] == k;
      CleanIs(k, |k| + 2);
      KeptIff(k);
    }
    hide Clean, Strip, IsLower, Trimmed;
  }

  lemma CutHeader(k: string, n: nat)
    requires n < |k| && k[n] == ']'
    ensures Clean(k[..n], |k| + 2) != k && !NoneOf(k, "]")
  {
    CleanIs(k[..n], |k| + 2);
    hide Clean;
    assert |Lower(Strip(k[..n]))| <= n;
  }

  lemma EmptyHeader(k: string, sec: string)
    requires NoneOf(sec, "]") && SpanNot(k, "]") == 0
    ensures Clean(sec, |k| + 2) == k <==> SectionSurvives(k, sec)
  {
    CleanNone(sec, |k| + 2, ']');
    assert k != "" ==> k[0] == ']';
  }

  /** Cleaning a name brings in no character that is not a lower-case letter. */
  lemma CleanNone(name: string, len: nat, c: char)
    requires c !in name && len > 0 && !('a' <= c <= 'z')
    ensures c !in Clean(name, len)
  {
    StripIn(name);
  }

  function WithSection(st: State, k: string): State {
    State("", k, st.sets + [(k, None)], st.errs)
  }

  lemma HeaderTurn(st: State, k: string)
    requires st.kept == "" && OneLine(k) && NoneOf(st.section, "]")
    ensures Turn(st, "[" + k + "]" + "\n", false) == Some(WithSection(st, k)) <==> SectionSurvives(k, st.section)
  {
    var body := "[" + k + "]";
    HeaderOneLine(k);
    assert body + "\n" == body + "" + "\n";
    TurnComplete(st, body, "");
    ParseHeader(k, st.section);
    HeaderName(k, st.section);
    hide Turn, ParseLine, SectionSurvives, Clean;
  }

  lemma HeaderOneLine(k: string)
    requires OneLine(k)
    ensures OneLine("[" + k + "]")
  {
    var body := "[" + k + "]";
    assert forall i :: 0 <= i < |k| ==> body[1 + i] == k[i];
  }

  /** The header printed for a section makes the loader store exactly that section if
      and only if its name survives and the line fits the buffer. */
  lemma SectionSurvivesIff(st: State, k: string, rest: string)
    requires st.kept == "" && OneLine(k) && NoneOf(st.section, "]")
    ensures ReadOnce(st, "[" + k + "]" + "\n" + rest) == Some(WithSection(st, k)) <==>
            SectionSurvives(k, st.section) && |k| + 3 < 1024
  {
    HeaderTurn(st, k);
    HeaderOneLine(k);
    hide Turn, ReadOnce, SectionSurvives;
    if |k| + 3 < LINE_SIZE {
      ShortRead(st, "[" + k + "]", rest);
    } else {
      LongRead(st, "[" + k + "]", rest);
    }
  }

  /** The section buffer of the loader never holds a bracket. */
  lemma SectionHasNoBracket(st: State, chunk: string, eof: bool)
    requires chunk != "" && NoneOf(st.section, "]") && Turn(st, chunk, eof).Some?
    ensures NoneOf(Turn(st, chunk, eof).value.section, "]")
  {
    var reading := Classify(st.kept, chunk, eof);
    hide Classify;
    hide ParseLine;
    if reading.Complete? && ParseLine(reading.line, st.section).Section? {
      ParsedSection(reading.line, st.section);
    }
  }

  /** So it holds none at any point of loading any text. */
  lemma {:induction false} NeverABracket(st: State, text: string)
    requires |st.kept| + 1 < LINE_SIZE && NoneOf(st.section, "]") && LoadFrom(st, text).Some?
    ensures NoneOf(LoadFrom(st, text).value.section, "]")
    decreases |text|
  {
    hide NoneOf, NextChunk, Turn, HitEnd;
    if text != "" {
      var chunk := NextChunk(st, text);
      SectionHasNoBracket(st, chunk, HitEnd(text, chunk, LINE_SIZE - |st.kept|));
      NeverABracket(ReadOnce(st, text).value, text[|chunk|..]);
    }
  }

  lemma ParsedSection(input: string, sec: string)
    requires NoneOf(sec, "]") && ParseLine(input, sec).Section?
    ensures NoneOf(ParseLine(input, sec).name, "]")
  {
    hide Clean, QuotedEntry, Strip, ScanSection;
    ScannedSection(Strip(input), sec);
    CleanNone(ScanSection(Strip(input), sec), |Strip(input)|, ']');
  }

  lemma ScannedSection(line: string, sec: string)
    requires NoneOf(sec, "]") && line != ""
    ensures ']' !in ScanSection(line, sec)
  {
    var n := SpanNot(line[1..], "]");
    assert line[1..1 + n] == line[1..][..n];
  }

  lemma ParseSection(k: string, sec: string)
    requires GoodSection(k)
    ensures ParseLine("[" + k + "]", sec) == Section(k)
  {
    ParseHeader(k, sec);
    SpanNotIs(k, "]", |k|);
    assert k[..|k|] == k;
    CleanIs(k, |k| + 2);
    KeptIff(k);
    hide ParseLine, Clean;
  }

  lemma SectionLine(st: State, k: string, rest: string)
    requires st.kept == "" && GoodSection(k)
    ensures LoadFrom(st, "[" + k + "]\n" + rest) == LoadFrom(WithSection(st, k), rest)
  {
    hide LoadFrom, Turn, ParseLine;
    var body := "[" + k + "]";
    assert forall i :: 0 <= i < |k| ==> body[1 + i] == k[i];
    assert OneLine(body);
    assert "[" + k + "]\n" == body + "\n" == body + "" + "\n";
    ParseSection(k, st.section);
    TurnComplete(st, body, "");
    LoadLine(st, body, WithSection(st, k), rest);
  }

  // ----- Entry lines

  /** The printed name with its padding, as the "%[^=]" conversion reads it. */
  function Padded(name: string): string {
    name + Spaces(30 - |name|) + " "
  }

  function Tail(u: string): string {
    "=" + if u == "" then "" else " " + u
  }

  /** A printed line without its trailing white space, for a value `u` that has none. */
  function EntryBody(name: string, u: string): string {
    Padded(name) + Tail(u)
  }

  lemma PaddedClean(name: string, len: nat)
    requires NameSurvives(name) && len > |name|
    ensures Clean(Padded(name), len) == name
    ensures NoneOf(Padded(name), "=") && Padded(name)[0] == name[0]
    ensures OneLine(name) ==> OneLine(Padded(name))
  {
    var p := Padded(name);
    assert forall i :: 0 <= i < |name| ==> p[i] == name[i];
    assert forall i :: |name| <= i < |p| ==> p[i] == ' ';
    StripIs(p, 0, |name|);
    assert p[0..|name|] == name;
    LowerIsLower(name);
  }

  lemma SplitAtEquals(p: string, tail: string)
    requires NoneOf(p, "=") && tail != "" && tail[0] == '='
    ensures SpanNot(p + tail, "=") == |p|
    ensures (p + tail)[..|p|] == p && LStrip((p + tail)[|p|..]) == tail
  {
    assert (p + tail)[|p|] == '=';
    SpanNotIs(p + tail, "=", |p|);
    assert (p + tail)[|p|..] == tail;
    LStripIs(tail, 0);
  }

  lemma KeyEqualsSplit(p: string, tail: string, v: string)
    requires p != "" && NoneOf(p, "=") && tail != "" && tail[0] == '=' && LStrip(tail[1..]) == v
    ensures KeyEquals(p + tail) == Some((p, v))
  {
    SplitAtEquals(p, tail);
    hide LStrip;
  }

  lemma ValueAfterSign(u: string)
    ensures LStrip(Tail(u)[1..]) == LStrip(u)
  {
    if u == "" {
      assert ("=" + "")[1..] == "";
    } else {
      assert ("=" + (" " + u))[1..] == " " + u;
      assert (" " + u)[1..] == u;
    }
  }

  lemma KeyEqualsEntry(name: string, u: string)
    requires NameSurvives(name)
    ensures KeyEquals(EntryBody(name, u)) == Some((Padded(name), LStrip(u)))
  {
    hide Clean, KeyEquals, LStrip, IsLower, Trimmed;
    PaddedClean(name, |name| + 1);
    ValueAfterSign(u);
    KeyEqualsSplit(Padded(name), Tail(u), LStrip(u));
  }

  lemma NotUnquoted(v: string, q: char)
    requires !Quoted(v) && (q == '"' || q == '\'')
    ensures v != "" && v[0] == q ==> SpanNot(v[1..], [q]) == 0
  {
    if v != "" && v[0] == q && |v| > 1 {
      assert v[1..][0] == v[1] == q;
    }
  }

  /** A line with a key and a sign always has the last of the formats. */
  lemma BareAfterKey(line: string)
    requires KeyEquals(line).Some?
    ensures ScanBare(line).Some? && ScanBare(line).value.0 == KeyEquals(line).value.0
  {
  }

  lemma NoQuotedEntry(line: string, key: string, v: string)
    requires KeyEquals(line) == Some((key, v)) && !Quoted(v)
    ensures QuotedEntry(line) == None
  {
    NotUnquoted(v, '"');
    NotUnquoted(v, '\'');
    hide KeyEquals, Quoted, SpanNot;
  }

  lemma UnquotedEntry(line: string, key: string, v: string)
    requires line != "" && KeyEquals(line) == Some((key, v)) && ValueSurvives(v)
    ensures QuotedEntry(line) == None
    ensures ParseUnquoted(line) == Entry(Clean(key, |line|), v)
  {
    NoQuotedEntry(line, key, v);
    BareAfterKey(line);
    hide Clean, KeyEquals, ScanBare, QuotedEntry;
    if v != "" {
      SpanNotIs(v, ";#", |v|);
      assert v[..|v|] == v;
      StripTrimmed(v);
      assert v != "\"\"" && v != "''";
    }
  }

  lemma NoneOfBoth(a: string, b: string, cs: string)
    requires NoneOf(a, cs) && NoneOf(b, cs)
    ensures NoneOf(a + b, cs)
  {
  }

  lemma NoneOfPrefix(a: string, b: string, cs: string)
    requires a <= b && NoneOf(b, cs)
    ensures NoneOf(a, cs)
  {
    assert forall i :: 0 <= i < |a| ==> a[i] == b[i];
  }

  lemma BodyFacts(name: string, u: string)
    requires NameSurvives(name) && OneLine(name) && OneLine(u) && (u != "" ==> !IsSpace(u[|u| - 1]))
    ensures var body := EntryBody(name, u);
            && body != "" && Trimmed(body) && OneLine(body) && body[0] == name[0]
            && body[|body| - 1] == (if u == "" then '=' else u[|u| - 1]) && |name| < |body|
  {
    var p, tail := Padded(name), Tail(u);
    PaddedClean(name, |name| + 1);
    assert |p| > |name|;
    hide Padded, Clean, IsLower;
    assert OneLine(p) && OneLine(tail);
    NoneOfBoth(p, tail, "\n\0");
    assert tail[|tail| - 1] == if u == "" then '=' else u[|u| - 1];
    assert (p + tail)[|p + tail| - 1] == tail[|tail| - 1];
  }

  /** A line that is no comment and no section header goes to the key formats. */
  lemma PlainLine(line: string, sec: string)
    requires line != "" && Trimmed(line) && line[0] !in "#;" && !(line[0] == '[' && line[|line| - 1] == ']')
    requires QuotedEntry(line) == None
    ensures ParseLine(line, sec) == ParseUnquoted(line)
  {
    StripTrimmed(line);
    hide Strip, Trimmed, QuotedEntry, ParseUnquoted, Clean, ScanSection;
  }

  lemma NotLikeSection(name: string, v: string)
    requires OneLine(name) && OneLine(v) && EntrySurvives(name, v)
    ensures var line := EntryBody(name, v);
            && line != "" && Trimmed(line) && line[0] !in "#;" && !(line[0] == '[' && line[|line| - 1] == ']')
            && |name| < |line|
  {
    BodyFacts(name, v);
    hide EntryBody, NoneOf, IsLower, Quoted;
  }

  lemma ParseEntry(name: string, v: string, sec: string)
    requires OneLine(name) && OneLine(v) && EntrySurvives(name, v)
    ensures ParseLine(EntryBody(name, v), sec) == Entry(name, v)
  {
    var body := EntryBody(name, v);
    assert LStrip(v) == v;
    hide ParseLine, EntryBody, Padded, Clean, KeyEquals, QuotedEntry, ParseUnquoted, LStrip, NoneOf, IsLower, Quoted,
         Trimmed, IsSpace;
    NotLikeSection(name, v);
    KeyEqualsEntry(name, v);
    PaddedClean(name, |body|);
    UnquotedEntry(body, Padded(name), v);
    PlainLine(body, sec);
  }

  lemma LineIs(name: string, v: string)
    ensures EntryLine(name, Some(v)) == Padded(name) + ("= " + v + "\n")
  {
    var front := name + Spaces(30 - |name|);
    hide Spaces;
    assert front + " = " + v + "\n" == (front + " ") + ("= " + v + "\n");
  }

  /** The white space after the body: the end of the value, or all that follows the
      sign. */
  function Blanks(v: string): string {
    if RStrip(v) == "" then " " + v else v[|RStrip(v)|..]
  }

  lemma BlanksAre(v: string)
    ensures forall i :: 0 <= i < |Blanks(v)| ==> IsSpace(Blanks(v)[i])
    ensures Tail(RStrip(v)) + Blanks(v) == "= " + v
  {
    RStripRest(v);
    TailThen(v, RStrip(v));
    hide RStrip, Tail;
  }

  lemma TailThen(v: string, u: string)
    requires u <= v
    ensures Tail(u) + (if u == "" then " " + v else v[|u|..]) == "= " + v
  {
    var r := v[|u|..];
    assert v == u + r;
    assert u != "" ==> "=" + (" " + u) + r == "= " + (u + r);
    assert u == "" ==> "=" + "" + (" " + v) == "= " + v;
  }

  /** A printed line is its body, white space and the newline. */
  lemma EntryLineSplit(name: string, v: string) returns (blanks: string)
    ensures EntryLine(name, Some(v)) == EntryBody(name, RStrip(v)) + blanks + "\n"
    ensures forall i :: 0 <= i < |blanks| ==> IsSpace(blanks[i])
    ensures Trimmed(v) ==> RStrip(v) == v && blanks == if v == "" then " " else ""
  {
    blanks := Blanks(v);
    if Trimmed(v) {
      StripTrimmed(v);
      assert v == "" ==> " " + v == " ";
    }
    LineIs(name, v);
    BlanksAre(v);
    hide EntryLine, Padded, RStrip, Tail, Blanks;
    assert Padded(name) + (Tail(RStrip(v)) + blanks + "\n") == Padded(name) + Tail(RStrip(v)) + blanks + "\n";
  }

  // ----- Exactly which entries survive

  /** A parsed value is no longer than what follows the sign, and shorter when that has
      quotes to lose or a comment. */
  lemma ParsedValue(line: string, key: string, v: string)
    requires line != "" && KeyEquals(line) == Some((key, v)) && QuotedEntry(line).None?
    ensures ParseUnquoted(line).Entry? && |ParseUnquoted(line).value| <= |v|
    ensures Trimmed(v) && (Quoted(v) || !NoneOf(v, ";#")) ==> |ParseUnquoted(line).value| < |v|
  {
    BareAfterKey(line);
    hide Clean, KeyEquals, ScanBare;
    var n := SpanNot(v, ";#");
    if n == |v| {
      assert v[..n] == v;
      if Trimmed(v) && Quoted(v) {
        StripTrimmed(v);
        QuotesOnly(v);
      }
    }
  }

  lemma QuotedShorter(line: string, key: string, v: string)
    requires KeyEquals(line) == Some((key, v)) && QuotedEntry(line).Some?
    ensures |QuotedEntry(line).value.1| < |v|
  {
  }

  /** Quotes that no quoting format takes are a pair with nothing in between. */
  lemma QuotesOnly(v: string)
    requires Quoted(v)
    ensures v[1] == v[0] ==> v == "\"\"" || v == "''"
    ensures v[1] != v[0] ==> SpanNot(v[1..], [v[0]]) > 0
  {
    if v[1] != v[0] {
      assert v[1..][0] == v[1];
    }
  }

  /** Whatever a line is parsed to, its key is lower-case and trimmed and has no sign. */
  lemma ParsedKey(input: string, sec: string)
    requires ParseLine(input, sec).Entry?
    ensures NameSurvives(ParseLine(input, sec).key)
  {
    var line := Strip(input);
    StripShape(input);
    var n := SpanNot(line, "=");
    ParsedFrom(line);
    CleanedKey(line, n);
    hide Strip, Clean, QuotedEntry, ParseUnquoted, NameSurvives;
  }

  lemma KeyFrom(line: string)
    ensures var n := SpanNot(line, "=");
            && (KeyEquals(line).Some? ==> 0 < n < |line| && KeyEquals(line).value.0 == line[..n])
            && (ScanBare(line).Some? ==> 0 < n < |line| && ScanBare(line).value.0 == line[..n])
  {
    assert SpanNot(line, "=") == |line| ==> line[|line|..] == "";
  }

  /** All formats take the key from the same place. */
  lemma ParsedFrom(line: string)
    requires line != ""
    ensures var n := SpanNot(line, "=");
            && (QuotedEntry(line).Some? ==> 0 < n < |line| && QuotedEntry(line).value.0 == line[..n])
            && (ParseUnquoted(line).Entry? ==> 0 < n < |line| && ParseUnquoted(line).key == Clean(line[..n], |line|))
  {
    KeyFrom(line);
    hide Clean, Strip, KeyEquals, ScanBare, SpanNot, SpanIn;
  }

  lemma CleanedKey(line: string, n: nat)
    requires Trimmed(line) && 0 < n < |line| && NoneOf(line[..n], "=") && line[0] !in "#;"
    ensures NameSurvives(Clean(line[..n], |line|))
  {
    var key := line[..n];
    CleanIs(key, |line|);
    CleanShape(key);
    CleanNone(key, |line|, '=');
    var i := LStripCuts(key);
    assert i == 0 && key[0..] == key;
    assert RStrip(key) != "" by {
      RStripRest(key);
    }
  }

  function WithEntry(st: State, name: string, v: string): State {
    st.(sets := st.sets + [(st.section + ":" + name, Some(v))])
  }

  /** A turn stores an entry exactly when its line is complete and parsed to it. */
  lemma TurnStores(st: State, chunk: string, name: string, v: string)
    requires st.kept == "" && chunk != ""
    ensures var reading := Classify("", chunk, false);
            Turn(st, chunk, false) == Some(WithEntry(st, name, v)) <==>
            reading.Complete? && ParseLine(reading.line, st.section) == Entry(name, v)
  {
    hide Classify, ParseLine;
    var reading := Classify("", chunk, false);
    assert |WithEntry(st, name, v).sets| == |st.sets| + 1;
    if reading.Complete? {
      var line := ParseLine(reading.line, st.section);
      assert st.(kept := "") == st;
      AppliedEntry(st, line, name, v);
    }
  }

  lemma AppliedEntry(st: State, line: Line, name: string, v: string)
    ensures Apply(st, line) == WithEntry(st, name, v) <==> line == Entry(name, v)
  {
    var want := WithEntry(st, name, v);
    assert want.sets[|st.sets|] == (st.section + ":" + name, Some(v));
    match line {
      case Section(k) => assert Apply(st, line).sets[|st.sets|] == (k, None);
      case Entry(k, w) =>
        assert Apply(st, line).sets[|st.sets|] == (st.section + ":" + k, Some(w));
        assert (st.section + ":" + k)[|st.section| + 1..] == k;
        assert (st.section + ":" + name)[|st.section| + 1..] == name;
      case _ => assert Apply(st, line).sets == st.sets;
    }
  }

  /** What the loader makes of a printed line whose key survives. */
  lemma PrintedLine(name: string, v: string)
    requires NameSurvives(name) && OneLine(name) && OneLine(v)
    ensures var body := EntryBody(name, RStrip(v));
            Classify("", EntryLine(name, Some(v)), false) ==
            if body[|body| - 1] == '\\' then Continued(body[..|body| - 1]) else Complete(body)
  {
    hide EntryLine, EntryBody, NameSurvives, RStrip, CString, IsSpace;
    var blanks := EntryLineSplit(name, v);
    var body := EntryBody(name, RStrip(v));
    NoneOfPrefix(RStrip(v), v, "\n\0");
    BodyFacts(name, RStrip(v));
    LineShape(body, blanks);
  }

  lemma StoredValueSurvives(name: string, v: string, sec: string)
    requires NameSurvives(name) && OneLine(name) && OneLine(v)
    requires ParseLine(EntryBody(name, RStrip(v)), sec) == Entry(name, v)
    ensures Trimmed(v) && NoneOf(v, ";#") && !Quoted(v) && !LikeSection(name, v)
  {
    hide EntryBody, Padded, Clean, KeyEquals, QuotedEntry, ParseUnquoted, RStrip, LStrip, Strip, NameSurvives, NoneOf,
         Quoted, IsSpace;
    var u := RStrip(v);
    var body := EntryBody(name, u);
    NoneOfPrefix(u, v, "\n\0");
    BodyFacts(name, u);
    StripTrimmed(body);
    KeyEqualsEntry(name, u);
    var w := LStrip(u);
    ValueBothEnds(v);
    if QuotedEntry(body).Some? {
      QuotedShorter(body, Padded(name), w);
    } else {
      ParsedValue(body, Padded(name), w);
    }
  }

  /** The two ends can be trimmed in either order. */
  lemma ValueBothEnds(v: string)
    ensures |LStrip(RStrip(v))| <= |v|
    ensures |LStrip(RStrip(v))| == |v| ==> RStrip(v) == v == LStrip(v) && Trimmed(v)
  {
    var i := LStripCuts(RStrip(v));
  }

  lemma EntryTurn(st: State, name: string, v: string)
    requires st.kept == "" && OneLine(name) && OneLine(v)
    ensures Turn(st, EntryLine(name, Some(v)), false) == Some(WithEntry(st, name, v)) <==> EntrySurvives(name, v)
  {
    var line := EntryLine(name, Some(v));
    assert line != "";
    hide Turn, ParseLine, Classify, EntryLine, EntryBody, NameSurvives, RStrip;
    TurnStores(st, line, name, v);
    var reading := Classify("", line, false);
    if EntrySurvives(name, v) {
      PrintedEnd(name, v);
      ParseEntry(name, v, st.section);
    }
    if reading.Complete? && ParseLine(reading.line, st.section) == Entry(name, v) {
      ParsedKey(reading.line, st.section);
      PrintedLine(name, v);
      StoredValueSurvives(name, v, st.section);
      PrintedEnd(name, v);
    }
  }

  lemma PrintedEnd(name: string, v: string)
    requires NameSurvives(name) && OneLine(name) && OneLine(v) && Trimmed(v)
    ensures Classify("", EntryLine(name, Some(v)), false).Complete? <==> (v != "" ==> v[|v| - 1] != '\\')
    ensures Classify("", EntryLine(name, Some(v)), false).Complete? ==>
              Classify("", EntryLine(name, Some(v)), false).line == EntryBody(name, v)
  {
    PrintedLine(name, v);
    StripTrimmed(v);
    BodyFacts(name, v);
    hide Classify, EntryLine, EntryBody, RStrip;
  }

  /** The printed line fits the line buffer. */
  predicate LineFits(name: string, v: string) {
    |EntryLine(name, Some(v))| < 1024
  }

  lemma LineBody(name: string, v: string) returns (body: string)
    requires OneLine(name) && OneLine(v)
    ensures OneLine(body) && EntryLine(name, Some(v)) == body + "\n"
  {
    var front := name + Spaces(30 - |name|);
    body := front + " = " + v;
    NoneOfBoth(name, Spaces(30 - |name|), "\n\0");
    NoneOfBoth(front, " = ", "\n\0");
    NoneOfBoth(front + " = ", v, "\n\0");
  }

  /** The line printed for an entry makes the loader store exactly that entry if and
      only if the entry survives and the line fits the buffer. */
  lemma EntrySurvivesIff(st: State, name: string, v: string, rest: string)
    requires st.kept == "" && OneLine(name) && OneLine(v)
    ensures EntryLine(name, Some(v)) + rest != ""
    ensures ReadOnce(st, EntryLine(name, Some(v)) + rest) == Some(WithEntry(st, name, v)) <==>
            EntrySurvives(name, v) && LineFits(name, v)
  {
    EntryTurn(st, name, v);
    var body := LineBody(name, v);
    hide Turn, ReadOnce, EntryLine, EntrySurvives;
    if LineFits(name, v) {
      ShortRead(st, body, rest);
    } else {
      LongRead(st, body, rest);
    }
  }

  /** An over-long line loses not only its entry but the whole file. */
  lemma LongEntryFails(st: State, name: string, v: string, rest: string)
    requires st.kept == "" && OneLine(name) && OneLine(v) && !LineFits(name, v)
    ensures LoadFrom(st, EntryLine(name, Some(v)) + rest) == None
  {
    var body := LineBody(name, v);
    LongRead(st, body, rest);
    hide ReadOnce, EntryLine;
  }

  /** The loader does not store the entry from its printed line, whatever follows it. */
  ghost predicate IsLost(st: State, name: string, v: string)
    requires st.kept == ""
  {
    forall rest :: EntryLine(name, Some(v)) + rest != "" ==>
      ReadOnce(st, EntryLine(name, Some(v)) + rest) != Some(WithEntry(st, name, v))
  }

  lemma LosesEntry(st: State, name: string, v: string)
    requires st.kept == "" && OneLine(name) && OneLine(v) && !(EntrySurvives(name, v) && LineFits(name, v))
    ensures IsLost(st, name, v)
  {
    hide ReadOnce, EntryLine, WithEntry, EntrySurvives, LineFits;
    forall rest | EntryLine(name, Some(v)) + rest != ""
      ensures ReadOnce(st, EntryLine(name, Some(v)) + rest) != Some(WithEntry(st, name, v))
    {
      EntrySurvivesIff(st, name, v, rest);
    }
  }

  /** Values lost to a comment, to quotes, to continuation, to trimming and to the size
      of the line buffer. */
  lemma LostValues(st: State)
    requires st.kept == ""
    ensures IsLost(st, "k", "a;b") && IsLost(st, "k", "\"a\"") && IsLost(st, "k", "a\\") && IsLost(st, "k", " a")
    ensures IsLost(st, "k", seq(2000, _ => 'a'))
  {
    hide IsLost, NameSurvives;
    assert !NoneOf("a;b", ";#") by {
      assert "a;b"[1] == ';';
    }
    LosesEntry(st, "k", "a;b");
    LosesEntry(st, "k", "\"a\"");
    LosesEntry(st, "k", "a\\");
    LosesEntry(st, "k", " a");
    LosesEntry(st, "k", seq(2000, _ => 'a'));
  }

  /** Entries lost to lower-casing, a comment and the sign in the key, and to a section. */
  lemma LostNames(st: State)
    requires st.kept == ""
    ensures IsLost(st, "K", "a") && IsLost(st, "#k", "a") && IsLost(st, "k=", "a") && IsLost(st, "[k", "a]")
  {
    hide IsLost, ValueSurvives;
    assert !IsLower("K") by {
      assert "K"[0] == 'K';
    }
    assert !NoneOf("k=", "=") by {
      assert "k="[1] == '=';
    }
    LosesEntry(st, "K", "a");
    LosesEntry(st, "#k", "a");
    LosesEntry(st, "k=", "a");
    LosesEntry(st, "[k", "a]");
  }

  lemma EntryLineLoads(st: State, name: string, v: string, rest: string)
    requires st.kept == "" && GoodEntry(name, Some(v))
    ensures LoadFrom(st, EntryLine(name, Some(v)) + rest) == LoadFrom(WithEntry(st, name, v), rest)
  {
    EntryTurn(st, name, v);
    var body := LineBody(name, v);
    hide LoadFrom, Turn, EntrySurvives, EntryLine;
    LoadLine(st, body, WithEntry(st, name, v), rest);
  }

  // ----- The whole file

  function PairAt(x: Slot, sec: string): seq<Pair> {
    if x.Used? && Matches(x.key, sec) then [(x.key, x.val)] else []
  }

  function EntrySets(s: seq<Slot>, sec: string): seq<Pair> {
    if s == [] then [] else EntrySets(s[..|s| - 1], sec) + PairAt(s[|s| - 1], sec)
  }

  /** The dictionary calls that loading a dump makes. */
  function DumpSets(s: seq<Slot>, secs: seq<string>): seq<Pair> {
    if secs == [] then []
    else
      var sec := secs[|secs| - 1];
      DumpSets(s, secs[..|secs| - 1]) + [(sec, None)] + EntrySets(s, sec)
  }

  /** Every slot of section `sec` prints a line that survives. */
  ghost predicate GoodIn(s: seq<Slot>, sec: string) {
    forall i :: 0 <= i < |s| && s[i].Used? && Matches(s[i].key, sec) ==>
      GoodEntry(s[i].key[|sec| + 1..], s[i].val)
  }

  lemma SlotLoads(x: Slot, sec: string, st: State, rest: string)
    requires st.kept == "" && st.section == sec && GoodIn([x], sec)
    ensures LoadFrom(st, LineAt(x, sec) + rest) == LoadFrom(st.(sets := st.sets + PairAt(x, sec)), rest)
  {
    hide LoadFrom;
    if x.Used? && Matches(x.key, sec) {
      assert [x][0] == x;
      var name := x.key[|sec| + 1..];
      assert x.key == sec + ":" + name;
      EntryLineLoads(st, name, x.val.value, rest);
    } else {
      assert "" + rest == rest;
      assert st.sets + [] == st.sets;
    }
  }

  lemma {:induction false} EntriesLoad(s: seq<Slot>, sec: string, st: State, rest: string)
    requires st.kept == "" && st.section == sec && GoodIn(s, sec)
    ensures LoadFrom(st, EntryLines(s, sec) + rest) ==
            LoadFrom(st.(sets := st.sets + EntrySets(s, sec)), rest)
  {
    hide LoadFrom, GoodEntry, LineAt, PairAt;
    if s == [] {
      assert "" + rest == rest;
      assert st.sets + [] == st.sets;
    } else {
      var p, x := s[..|s| - 1], s[|s| - 1];
      var mid := st.(sets := st.sets + EntrySets(p, sec));
      assert EntryLines(s, sec) + rest == EntryLines(p, sec) + (LineAt(x, sec) + rest);
      EntriesLoad(p, sec, st, LineAt(x, sec) + rest);
      SlotLoads(x, sec, mid, rest);
      assert mid.sets + PairAt(x, sec) == st.sets + EntrySets(s, sec);
    }
  }

  lemma SectionLoads(s: seq<Slot>, sec: string, st: State, rest: string)
    requires st.kept == "" && GoodSection(sec) && Found(s, sec) && GoodIn(s, sec)
    ensures LoadFrom(st, SectionText(s, sec) + rest) ==
            LoadFrom(State("", sec, st.sets + [(sec, None)] + EntrySets(s, sec), st.errs), rest)
  {
    hide LoadFrom;
    var after := EntryLines(s, sec) + ("\n" + rest);
    assert SectionText(s, sec) + rest == "\n" + ("[" + sec + "]\n" + after);
    BlankLine(st, "[" + sec + "]\n" + after);
    SectionLine(st, sec, after);
    var mid := State("", sec, st.sets + [(sec, None)], st.errs);
    EntriesLoad(s, sec, mid, "\n" + rest);
    BlankLine(mid.(sets := mid.sets + EntrySets(s, sec)), rest);
  }

  /** The loop state after the sections `secs` of `s` have been read from `st`. */
  function After(s: seq<Slot>, secs: seq<string>, st: State): State {
    State("", if secs == [] then st.section else secs[|secs| - 1], st.sets + DumpSets(s, secs), st.errs)
  }

  lemma {:induction false} SectionsLoad(s: seq<Slot>, secs: seq<string>, st: State, rest: string)
    requires st.kept == ""
    requires forall i :: 0 <= i < |secs| ==> GoodSection(secs[i]) && Found(s, secs[i]) && GoodIn(s, secs[i])
    ensures LoadFrom(st, SectionTexts(s, secs) + rest) == LoadFrom(After(s, secs, st), rest)
  {
    hide LoadFrom, GoodSection, Found, GoodIn, SectionText, EntrySets;
    if secs == [] {
      assert "" + rest == rest;
      assert st.sets + [] == st.sets;
    } else {
      var init, sec := secs[..|secs| - 1], secs[|secs| - 1];
      var mid := After(s, init, st);
      assert SectionTexts(s, secs) + rest == SectionTexts(s, init) + (SectionText(s, sec) + rest);
      SectionsLoad(s, init, st, SectionText(s, sec) + rest);
      SectionLoads(s, sec, mid, rest);
      assert mid.sets + [(sec, None)] + EntrySets(s, sec) == st.sets + DumpSets(s, secs);
    }
  }

  lemma PrintableSection(s: seq<Slot>, sec: string)
    requires Printable(s) && sec in Sections(s)
    ensures GoodSection(sec) && Found(s, sec) && GoodIn(s, sec)
  {
    SectionsAre(s);
    var i := Find(s, sec);
    assert GoodSlot(s[i], Sections(s));
    LowerIsLower(sec);
    forall j | 0 <= j < |s| && s[j].Used? && Matches(s[j].key, sec)
      ensures GoodEntry(s[j].key[|sec| + 1..], s[j].val)
    {
      MatchesIffSectionOf(s[j].key, sec);
      assert GoodSlot(s[j], Sections(s));
    }
  }

  /** Loading the dump of a printable table succeeds and replays its sections, each
      followed by its entries. */
  lemma DumpLoads(s: seq<Slot>)
    requires Printable(s)
    ensures LoadSets(Dump(s)) == Some(DumpSets(s, Sections(s)))
  {
    var secs := Sections(s);
    forall i | 0 <= i < |secs| ensures GoodSection(secs[i]) && Found(s, secs[i]) && GoodIn(s, secs[i]) {
      PrintableSection(s, secs[i]);
    }
    SectionsLoad(s, secs, START, "\n");
    BlankLine(After(s, secs, START), "");
    assert "\n" + "" == "\n";
    assert [] + DumpSets(s, secs) == DumpSets(s, secs);
  }

  // ----- The map of the loaded dictionary

  /** The calls store exactly the entries of `m`. */
  ghost predicate Replays(sets: seq<Pair>, m: map<string, Value>) {
    && (forall i :: 0 <= i < |sets| ==> sets[i].0 in m && m[sets[i].0] == sets[i].1)
    && (forall k :: k in m ==> exists i :: 0 <= i < |sets| && sets[i].0 == k)
  }

  lemma {:induction false} MapAllHas(sets: seq<Pair>, m: map<string, Value>)
    requires forall i :: 0 <= i < |sets| ==> sets[i].0 in m && m[sets[i].0] == sets[i].1
    ensures forall k :: k in MapAll(sets) ==> k in m && MapAll(sets)[k] == m[k]
    ensures forall i :: 0 <= i < |sets| ==> sets[i].0 in MapAll(sets)
  {
    if sets != [] {
      MapAllHas(sets[..|sets| - 1], m);
    }
  }

  lemma ReplaysMap(sets: seq<Pair>, m: map<string, Value>)
    requires Replays(sets, m)
    ensures MapAll(sets) == m
  {
    MapAllHas(sets, m);
    forall k | k in m ensures k in MapAll(sets) {
      var i :| 0 <= i < |sets| && sets[i].0 == k;
    }
  }

  lemma {:induction false} EntrySetsAre(s: seq<Slot>, sec: string)
    ensures forall p :: p in EntrySets(s, sec) ==>
              exists i :: 0 <= i < |s| && s[i].Used? && Matches(s[i].key, sec) && p == (s[i].key, s[i].val)
    ensures forall i :: 0 <= i < |s| && s[i].Used? && Matches(s[i].key, sec) ==>
              (s[i].key, s[i].val) in EntrySets(s, sec)
  {
    if s != [] {
      var q, x := s[..|s| - 1], s[|s| - 1];
      EntrySetsAre(q, sec);
      forall p | p in EntrySets(s, sec)
        ensures exists i :: 0 <= i < |s| && s[i].Used? && Matches(s[i].key, sec) && p == (s[i].key, s[i].val)
      {
        if p in EntrySets(q, sec) {
          var i :| 0 <= i < |q| && q[i].Used? && Matches(q[i].key, sec) && p == (q[i].key, q[i].val);
          assert s[i] == q[i];
        } else {
          assert p in PairAt(x, sec);
        }
      }
      forall i | 0 <= i < |s| && s[i].Used? && Matches(s[i].key, sec)
        ensures (s[i].key, s[i].val) in EntrySets(s, sec)
      {
        if i < |q| {
          assert q[i] == s[i];
        }
      }
    }
  }

  /** `p` is one of the calls for section `sec`. */
  predicate CallOf(p: Pair, s: seq<Slot>, sec: string) {
    p == (sec, None) || p in EntrySets(s, sec)
  }

  lemma {:induction false} DumpSetsIn(s: seq<Slot>, secs: seq<string>, p: Pair)
    ensures p in DumpSets(s, secs) <==> exists j :: 0 <= j < |secs| && CallOf(p, s, secs[j])
  {
    if secs != [] {
      var init, sec := secs[..|secs| - 1], secs[|secs| - 1];
      DumpSetsIn(s, init, p);
      assert p in DumpSets(s, secs) <==> p in DumpSets(s, init) || CallOf(p, s, sec);
      assert forall j :: 0 <= j < |init| ==> secs[j] == init[j];
    }
  }

  lemma DumpSetsReplay(s: seq<Slot>)
    requires Distinct(s)
    ensures Replays(DumpSets(s, Sections(s)), Kept(ToMap(s)))
  {
    var secs, m := Sections(s), ToMap(s);
    var sets := DumpSets(s, secs);
    SectionsAre(s);
    DenotesToMap(s);
    forall i | 0 <= i < |sets| ensures sets[i].0 in Kept(m) && Kept(m)[sets[i].0] == sets[i].1 {
      assert sets[i] in sets;
      DumpSetsIn(s, secs, sets[i]);
      var j :| 0 <= j < |secs| && CallOf(sets[i], s, secs[j]);
      InMap(s, secs[j]);
      assert secs[j] in secs;
      if sets[i] in EntrySets(s, secs[j]) {
        EntrySetsAre(s, secs[j]);
        var q :| 0 <= q < |s| && s[q].Used? && Matches(s[q].key, secs[j]) && sets[i] == (s[q].key, s[q].val);
        MatchesIffSectionOf(s[q].key, secs[j]);
      }
    }
    forall k | k in Kept(m) ensures exists i :: 0 <= i < |sets| && sets[i].0 == k {
      KeptReplayed(s, k);
    }
  }

  lemma KeptReplayed(s: seq<Slot>, k: string)
    requires Distinct(s) && k in Kept(ToMap(s))
    ensures exists i :: 0 <= i < |DumpSets(s, Sections(s))| && DumpSets(s, Sections(s))[i].0 == k
  {
    var secs := Sections(s);
    var sec := if IsSection(k) then k else SectionOf(k);
    InMap(s, sec);
    InMap(s, k);
    SectionsAre(s);
    assert IsSection(sec);
    var j :| 0 <= j < |secs| && secs[j] == sec;
    var p: Pair := (k, if IsSection(k) then None else ToMap(s)[k]);
    if !IsSection(k) {
      MatchesIffSectionOf(k, sec);
      EntrySetsAre(s, sec);
      assert p in EntrySets(s, secs[j]);
    }
    assert CallOf(p, s, secs[j]);
    DumpSetsIn(s, secs, p);
  }

  /** The round trip. Loading the dump of a printable table yields a dictionary that
      stands for the original map, restricted to the sections and to the entries
      whose section entry exists. */
  lemma RoundTrip(s: seq<Slot>)
    requires Distinct(s) && Printable(s)
    ensures LoadSets(Dump(s)).Some?
    ensures ToMap(SetAll(Frees(MIN_SIZE), LoadSets(Dump(s)).value)) == Kept(ToMap(s))
  {
    DumpLoads(s);
    DumpSetsReplay(s);
    ReplaysMap(DumpSets(s, Sections(s)), Kept(ToMap(s)));
    SetAllRefines(MIN_SIZE, DumpSets(s, Sections(s)));
  }
}

/** The INI parser: one line, then a whole file. */
module IniLoad {
  import opened Options
  import opened Slots
  import opened Dictionary
  import opened DictionaryRuns
  import opened Text

  /** The size of the line buffer handed to `fgets`. */
  const LINE_SIZE: nat := 1024

  // ----- The `sscanf` formats of one line; `None` when fewer than two fields match

  /** "%[^=] = ": a non-empty key, and the input left after the sign. */
  function KeyEquals(line: string): (r: Option<(string, string)>)
    ensures r.Some? ==> 0 < |r.value.0| < |line|
  {
    var n := SpanNot(line, "=");
    var rest := LStrip(line[n..]);
    if n == 0 || rest == "" || rest[0] != '=' then None
    else Some((line[..n], LStrip(rest[1..])))
  }

  /** "%[^=] = q%[^q]q" for a quote `q`. */
  function ScanQuoted(line: string, q: char): (r: Option<(string, string)>) {
    match KeyEquals(line)
    case None => None
    case Some((key, rest)) =>
      if rest == "" || rest[0] != q then None
      else
        var n := SpanNot(rest[1..], [q]);
        if n == 0 then None else Some((key, rest[1..1 + n]))
  }

  /** "%[^=] = %[^;#]". */
  function ScanPlain(line: string): (r: Option<(string, string)>) {
    match KeyEquals(line)
    case None => None
    case Some((key, rest)) =>
      var n := SpanNot(rest, ";#");
      if n == 0 then None else Some((key, rest[..n]))
  }

  /** "%[^=] = %[;#]". */
  function ScanMark(line: string): (r: Option<(string, string)>) {
    match KeyEquals(line)
    case None => None
    case Some((key, rest)) =>
      var n := SpanIn(rest, ";#");
      if n == 0 then None else Some((key, rest[..n]))
  }

  /** "%[^=] %[=]". */
  function ScanBare(line: string): (r: Option<(string, string)>) {
    var n := SpanNot(line, "=");
    var rest := LStrip(line[n..]);
    var m := SpanIn(rest, "=");
    if n == 0 || m == 0 then None else Some((line[..n], rest[..m]))
  }

  /** "[%[^]]" into a buffer that holds `section`, which stays when nothing matches. */
  function ScanSection(line: string, section: string): string
    requires line != ""
  {
    var n := SpanNot(line[1..], "]");
    if n == 0 then section else line[1..1 + n]
  }

  // ----- One line

  datatype Line =
    | Empty
    | Comment
    | Section(name: string)
    | Entry(key: string, value: string)
    | Malformed

  /** The name of a section or key after `strstrip` and `strlwc` with size `len`. */
  function Clean(name: string, len: nat): string
    requires len > 0
  {
    Lower(Take(Strip(name), len - 1))
  }

  /** `iniparser_line`. The previous section is an input because "[]" matches no
      name and leaves the section buffer as it was. */
  function ParseLine(input: string, section: string): Line {
    var line := Strip(input);
    var len := |line|;
    if len < 1 then Empty
    else if line[0] == '#' || line[0] == ';' then Comment
    else if line[0] == '[' && line[len - 1] == ']' then Section(Clean(ScanSection(line, section), len))
    else
      match QuotedEntry(line)
      case Some((k, v)) => Entry(Clean(k, len), v)
      case None => ParseUnquoted(line)
  }

  function QuotedEntry(line: string): Option<(string, string)> {
    if ScanQuoted(line, '"').Some? then ScanQuoted(line, '"') else ScanQuoted(line, '\'')
  }

  /** The last three formats, tried in order. */
  function ParseUnquoted(line: string): Line
    requires line != ""
  {
    match ScanPlain(line)
    case Some((k, v)) =>
      var w := Strip(v);
      Entry(Clean(k, |line|), if w == "\"\"" || w == "''" then "" else w)
    case None =>
      match ScanMark(line)
      case Some((k, _)) => Entry(Clean(k, |line|), "")
      case None =>
        match ScanBare(line)
        case Some((k, _)) => Entry(Clean(k, |line|), "")
        case None => Malformed
  }

  // ----- A whole file

  /** The variables of the loading loop: the kept part of a continued line, the
      current section, the dictionary calls made and the error count. */
  datatype State = State(kept: string, section: string, sets: seq<Pair>, errs: nat)

  const START := State("", "", [], 0)

  /** `fgets` with room for `cap - 1` characters. */
  function Fgets(text: string, cap: nat): (chunk: string)
    requires text != "" && cap >= 2
    ensures chunk <= text && 0 < |chunk| < cap
  {
    var n := SpanNot(text, "\n");
    Take(if n < |text| then text[..n + 1] else text, cap - 1)
  }

  /** The read that produced `chunk` ran into the end of the file. */
  predicate HitEnd(text: string, chunk: string, cap: nat)
    requires chunk != ""
  {
    |chunk| == |text| && chunk[|chunk| - 1] != '\n' && |chunk| + 1 < cap
  }

  /** What the loop makes of the line buffer after a read: nothing, the "input line
      too long" exit, a line to be continued, or a line to parse. */
  datatype Reading = Skip | TooLong | Continued(kept: string) | Complete(line: string)

  function Classify(kept: string, chunk: string, eof: bool): (r: Reading)
    requires chunk != ""
    ensures r.Continued? ==> |r.kept| < |kept + chunk|
  {
    var line := CString(kept + chunk);
    if |line| <= 1 then Skip
    else if line[|line| - 1] != '\n' && !eof then TooLong
    else
      var t := RStrip(line);
      if t != "" && t[|t| - 1] == '\\' then Continued(t[..|t| - 1]) else Complete(t)
  }

  /** One turn of the loop. */
  function Turn(st: State, chunk: string, eof: bool): (r: Option<State>)
    requires chunk != ""
    ensures r.Some? ==> |r.value.kept| < |st.kept + chunk|
  {
    match Classify(st.kept, chunk, eof)
    case Skip => Some(st)
    case TooLong => None
    case Continued(kept) => Some(st.(kept := kept))
    case Complete(line) => Some(Apply(st.(kept := ""), ParseLine(line, st.section)))
  }

  function Apply(st: State, line: Line): (r: State)
    ensures r.kept == st.kept
  {
    match line
    case Empty => st
    case Comment => st
    case Section(name) => st.(section := name, sets := st.sets + [(name, None)])
    case Entry(key, value) => st.(sets := st.sets + [(st.section + ":" + key, Some(value))])
    case Malformed => st.(errs := st.errs + 1)
  }

  /** What one `fgets` reads of `text` after the kept part of a continued line. */
  function NextChunk(st: State, text: string): (chunk: string)
    requires |st.kept| + 1 < LINE_SIZE && text != ""
    ensures chunk <= text && 0 < |chunk| < LINE_SIZE - |st.kept|
  {
    Fgets(text, LINE_SIZE - |st.kept|)
  }

  /** One read and one turn of the loop; `None` is the "input line too long" exit. */
  function ReadOnce(st: State, text: string): (r: Option<State>)
    requires |st.kept| + 1 < LINE_SIZE && text != ""
    ensures r.Some? ==> |r.value.kept| + 1 < LINE_SIZE
  {
    var chunk := NextChunk(st, text);
    Turn(st, chunk, HitEnd(text, chunk, LINE_SIZE - |st.kept|))
  }

  function LoadFrom(st: State, text: string): Option<State>
    requires |st.kept| + 1 < LINE_SIZE
    decreases |text|
  {
    if text == "" then Some(st)
    else
      match ReadOnce(st, text)
      case None => None
      case Some(st') => LoadFrom(st', text[|NextChunk(st, text)|..])
  }

  /** The dictionary calls that loading `text` makes; `None` when loading fails. */
  function LoadSets(text: string): Option<seq<Pair>> {
    match LoadFrom(START, text)
    case None => None
    case Some(st) => if st.errs == 0 then Some(st.sets) else None
  }

  /** The switch of the loading loop: what one parsed line does to the dictionary,
      the section buffer and the error count. */
  method Dispatch(d: Dictionary, line: Line, section: string, errs: nat, ghost st: State)
    returns (section': string, errs': nat)
    requires d.Valid() && section == st.section && errs == st.errs
    requires d.Slots() == SetAll(Frees(MIN_SIZE), st.sets)
    modifies d, d.val, d.key, d.hash
    ensures d.Valid()
    ensures d.val == old(d.val) || fresh(d.val)
    ensures d.key == old(d.key) || fresh(d.key)
    ensures d.hash == old(d.hash) || fresh(d.hash)
    ensures section' == Apply(st, line).section && errs' == Apply(st, line).errs
    ensures d.Slots() == SetAll(Frees(MIN_SIZE), Apply(st, line).sets)
  {
    hide SetAll, SetSlots, Frees, Count, Distinct;
    section', errs' := section, errs;
    match line {
      case Empty =>
      case Comment =>
      case Section(name) =>
        section' := name;
        SetAllSnoc(Frees(MIN_SIZE), st.sets, (name, None));
        var _ := d.Set(Some(name), None);
      case Entry(key, value) =>
        var k := section + ":" + key;
        SetAllSnoc(Frees(MIN_SIZE), st.sets, (k, Some(value)));
        var _ := d.Set(Some(k), Some(value));
      case Malformed =>
        errs' := errs + 1;
    }
  }

  /** The body of the loading loop: one `fgets` and what becomes of the line buffer.
      `ok` is false on the "input line too long" exit. */
  method ReadLine(d: Dictionary, kept: string, section: string, errs: nat, rest: string, ghost st: State)
    returns (ok: bool, kept': string, section': string, errs': nat, rest': string, ghost st': State)
    requires d.Valid() && |kept| + 1 < LINE_SIZE && rest != "" && st == State(kept, section, st.sets, errs)
    requires d.Slots() == SetAll(Frees(MIN_SIZE), st.sets)
    modifies d, d.val, d.key, d.hash
    ensures d.Valid() && |rest'| < |rest|
    ensures d.val == old(d.val) || fresh(d.val)
    ensures d.key == old(d.key) || fresh(d.key)
    ensures d.hash == old(d.hash) || fresh(d.hash)
    ensures !ok ==> LoadFrom(st, rest) == None
    ensures ok ==> |kept'| + 1 < LINE_SIZE && st' == State(kept', section', st'.sets, errs')
    ensures ok ==> LoadFrom(st, rest) == LoadFrom(st', rest') && d.Slots() == SetAll(Frees(MIN_SIZE), st'.sets)
  {
    hide SetAll, SetSlots, Classify, ParseLine, Fgets, HitEnd, LoadFrom, Apply, Frees;
    var cap := LINE_SIZE - |kept|;
    var chunk := Fgets(rest, cap);
    var eof := HitEnd(rest, chunk, cap);
    LoadTurn(st, rest);
    ok, kept', section', errs', rest', st' := true, kept, section, errs, rest[|chunk|..], st;
    match Classify(kept, chunk, eof) {
      case Skip =>
      case TooLong =>
        ok := false;
      case Continued(start) =>
        kept', st' := start, st.(kept := start);
      case Complete(line) =>
        var parsed := ParseLine(line, section);
        kept', st' := "", st.(kept := "");
        section', errs' := Dispatch(d, parsed, section, errs, st');
        st' := Apply(st', parsed);
    }
  }

  /** `iniparser_load`: `file` is the text of the file, `None` when it cannot be
      opened. */
  method Load(file: Option<string>) returns (dict: Dictionary?)
    ensures dict == null <==> file.None? || LoadSets(file.value).None?
    ensures dict != null ==> fresh(dict) && dict.Valid()
    ensures dict != null ==> dict.Slots() == SetAll(Frees(MIN_SIZE), LoadSets(file.value).value)
  {
    if file.None? {
      return null;
    }
    hide SetAll, LoadFrom, Frees;
    var d := new Dictionary(0);
    EmptySets();
    var rest := file.value;
    var kept, section, errs := "", "", 0;
    ghost var st := START;
    while rest != ""
      invariant |kept| + 1 < LINE_SIZE && st == State(kept, section, st.sets, errs)
      invariant fresh(d) && fresh(d.val) && fresh(d.key) && fresh(d.hash) && d.Valid()
      invariant d.Slots() == SetAll(Frees(MIN_SIZE), st.sets)
      invariant LoadFrom(START, file.value) == LoadFrom(st, rest)
      decreases |rest|
    {
      var ok: bool;
      ok, kept, section, errs, rest, st := ReadLine(d, kept, section, errs, rest, st);
      if !ok {
        return null;
      }
    }
    LoadEnd(st);
    dict := if errs > 0 then null else d;
  }

  lemma EmptySets()
    ensures SetAll(Frees(MIN_SIZE), START.sets) == Frees(MIN_SIZE)
  {
  }

  lemma LoadEnd(st: State)
    requires |st.kept| + 1 < LINE_SIZE
    ensures LoadFrom(st, "") == Some(st)
  {
  }

  /** One turn of the loop, by what it makes of the line buffer. */
  lemma LoadTurn(st: State, text: string)
    requires |st.kept| + 1 < LINE_SIZE && text != ""
    ensures var cap := LINE_SIZE - |st.kept|;
            var chunk := Fgets(text, cap);
            var rest := text[|chunk|..];
            match Classify(st.kept, chunk, HitEnd(text, chunk, cap))
            case Skip => LoadFrom(st, text) == LoadFrom(st, rest)
            case TooLong => LoadFrom(st, text) == None
            case Continued(kept) =>
              |kept| + 1 < LINE_SIZE && LoadFrom(st, text) == LoadFrom(st.(kept := kept), rest)
            case Complete(line) =>
              LoadFrom(st, text) == LoadFrom(Apply(st.(kept := ""), ParseLine(line, st.section)), rest)
  {
    hide Classify, ParseLine, Fgets, HitEnd, Apply;
  }

  lemma SetAllSnoc(s: seq<Slot>, sets: seq<Pair>, p: Pair)
    ensures SetAll(s, sets + [p]) == SetSlots(SetAll(s, sets), p.0, p.1)
    ensures MapAll(sets + [p]) == MapAll(sets)[p.0 := p.1]
  {
    assert (sets + [p])[..|sets|] == sets;
  }
}

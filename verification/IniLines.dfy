/** What the lines of a configuration file store, as an editor may write them: blanks,
    upper case, comments, quotes, continued lines and errors. */
module IniLines {
  import opened Options
  import opened Text
  import opened IniLoad
  import opened IniRoundTrip

  // ----- One line, read on its own

  /** The line goes on in the next one. */
  predicate Continues(line: string) {
    RStrip(line) != "" && RStrip(line)[|RStrip(line)| - 1] == '\\'
  }

  lemma NewlineStripped(line: string)
    ensures RStrip(line + "\n") == RStrip(line)
  {
    assert (line + "\n")[..|line|] == line;
  }

  lemma ClassifyLine(line: string)
    requires OneLine(line) && line != ""
    ensures Classify("", line + "\n", false) ==
            if Continues(line) then Continued(RStrip(line)[..|RStrip(line)| - 1]) else Complete(RStrip(line))
  {
    NewlineIn(line);
    hide RStrip, CString, NoneOf;
  }

  lemma NewlineIn(line: string)
    requires OneLine(line)
    ensures CString("" + (line + "\n")) == line + "\n" && RStrip(line + "\n") == RStrip(line)
  {
    NewlineStripped(line);
    assert NoneOf(line, "\0") && NoneOf("\n", "\0");
    NoneOfBoth(line, "\n", "\0");
    CStringSelf(line + "\n");
    hide RStrip, CString, NoneOf;
    assert "" + (line + "\n") == line + "\n";
  }

  /** Any line without its newline, followed by anything: it is kept when it continues,
      and parsed otherwise. */
  lemma LineRead(st: State, line: string, rest: string)
    requires st.kept == "" && OneLine(line) && 0 < |line| < 1023
    ensures ReadOnce(st, line + "\n" + rest) ==
            if Continues(line) then Some(st.(kept := RStrip(line)[..|RStrip(line)| - 1]))
            else Some(Apply(st, ParseLine(RStrip(line), st.section)))
  {
    ClassifyLine(line);
    ShortRead(st, line, rest);
    hide ReadOnce, NextChunk, RStrip, Classify, ParseLine, Apply, NoneOf;
    assert st.(kept := "") == st;
  }

  lemma StripTwice(line: string)
    ensures Strip(RStrip(line)) == Strip(line)
  {
    var u := RStrip(line);
    RStripRest(line);
    var i := LStripCuts(u);
    if i < |u| {
      assert u[i] == line[i];
      StripIs(line, i, |u|);
      StripIs(u, i, |u|);
      assert line[i..|u|] == u[i..|u|];
    } else {
      assert forall j :: 0 <= j < |line| ==> IsSpace(line[j]);
      StripIs(line, 0, 0);
      StripIs(u, 0, 0);
    }
  }

  /** Blank lines and comments store nothing. */
  lemma NothingStored(st: State, line: string, rest: string)
    requires st.kept == "" && OneLine(line) && 0 < |line| < 1023
    requires Strip(line) == "" || (Strip(line)[0] in "#;" && !Continues(line))
    ensures ReadOnce(st, line + "\n" + rest) == Some(st)
  {
    LineRead(st, line, rest);
    StripTwice(line);
    if Strip(line) == "" {
      BlankEnds(line);
    }
    hide ReadOnce, RStrip, Strip, QuotedEntry, ParseUnquoted, Clean, ScanSection;
  }

  lemma BlankEnds(line: string)
    requires Strip(line) == ""
    ensures RStrip(line) == ""
  {
    var i := LStripCuts(line);
    if i == |line| {
      RStripIs(line, 0);
    } else {
      RStripRest(line[i..]);
      assert false;
    }
  }

  /** The line of a header with blanks around it. */
  function HeaderLine(b: string, k: string, b': string): string {
    b + ("[" + k + "]") + b'
  }

  lemma HeaderShape(b: string, k: string, b': string)
    requires Blank(b) && Blank(b') && OneLine(k)
    ensures OneLine(HeaderLine(b, k, b')) && !Continues(HeaderLine(b, k, b'))
    ensures Strip(RStrip(HeaderLine(b, k, b'))) == Strip("[" + k + "]")
  {
    var head := "[" + k + "]";
    HeaderOneLine(k);
    NoneOfBoth(b, head, "\n\0");
    NoneOfBoth(b + head, b', "\n\0");
    StripBetween(b, head, b');
    StripTrimmed(head);
    StripTwice(b + head + b');
    hide Strip, RStrip, NoneOf;
    assert (b + head)[|b + head| - 1] == ']';
  }

  lemma HeaderName(k: string, sec: string)
    requires k != "" && NoneOf(k, "]")
    ensures ParseLine("[" + k + "]", sec) == Section(Lower(Strip(k)))
  {
    ParseHeader(k, sec);
    SpanNotIs(k, "]", |k|);
    assert k[..|k|] == k;
    CleanIs(k, |k| + 2);
    hide ParseLine, Clean, Strip, Lower;
  }

  /** A header, with blanks around it and around the name. */
  lemma HeaderRead(st: State, b: string, k: string, b': string, rest: string)
    requires st.kept == "" && Blank(b) && Blank(b') && OneLine(k) && k != "" && NoneOf(k, "]")
    requires |HeaderLine(b, k, b')| < 1023
    ensures ReadOnce(st, HeaderLine(b, k, b') + "\n" + rest) == Some(WithSection(st, Lower(Strip(k))))
  {
    hide ReadOnce, Strip, RStrip, ParseLine, NoneOf, Lower, Continues;
    var line := HeaderLine(b, k, b');
    HeaderShape(b, k, b');
    assert line != "";
    LineRead(st, line, rest);
    ParseStripped(RStrip(line), "[" + k + "]", st.section);
    HeaderName(k, st.section);
  }

  /** Only the trimmed line matters to the parser. */
  lemma ParseStripped(a: string, b: string, sec: string)
    requires Strip(a) == Strip(b)
    ensures ParseLine(a, sec) == ParseLine(b, sec)
  {
    hide Strip, QuotedEntry, ParseUnquoted, Clean, ScanSection;
  }

  /** White space within a line. */
  predicate Blank(b: string) {
    forall i :: 0 <= i < |b| ==> IsSpace(b[i]) && b[i] != '\n'
  }

  lemma StripBetween(b: string, s: string, b': string)
    requires Blank(b) && Blank(b') && s != "" && Trimmed(s)
    ensures Strip(b + s + b') == s && RStrip(b + s + b') == b + s
  {
    var line := b + s + b';
    assert forall i :: 0 <= i < |s| ==> line[|b| + i] == s[i];
    assert forall i :: |b + s| <= i < |line| ==> line[i] == b'[i - |b + s|];
    assert forall i :: 0 <= i < |b| ==> line[i] == b[i];
    assert line[|b|] == s[0] && line[|b + s| - 1] == s[|s| - 1];
    StripIs(line, |b|, |b + s|);
    assert line[|b|..|b + s|] == s;
    RStripIs(line, |b + s|);
    assert line[..|b + s|] == b + s;
  }

  // ----- Lines with a key

  /** What may stand before the sign: anything but a comment, blanks included. */
  predicate RawKey(r: string) {
    OneLine(r) && NoneOf(r, "=") && Strip(r) != "" && Strip(r)[0] !in "#;"
  }

  /** The line does not continue, and does not look like a section header. */
  predicate EndsPlainly(r: string, t: string)
    requires Strip(r) != ""
  {
    var end := if RStrip(t) == "" then '=' else RStrip(t)[|RStrip(t)| - 1];
    end != '\\' && !(Strip(r)[0] == '[' && end == ']')
  }

  /** What is stored for the trimmed text after the sign: the inside of quotes, or what
      comes before a comment, trimmed. */
  function Value(w: string): string {
    if w != "" && w[0] == '"' && SpanNot(w[1..], "\"") > 0 then w[1..1 + SpanNot(w[1..], "\"")]
    else if w != "" && w[0] == '\'' && SpanNot(w[1..], "'") > 0 then w[1..1 + SpanNot(w[1..], "'")]
    else
      var v := Strip(w[..SpanNot(w, ";#")]);
      if v == "\"\"" || v == "''" then "" else v
  }

  lemma RStripAppend(a: string, b: string)
    requires RStrip(b) != ""
    ensures RStrip(a + b) == a + RStrip(b)
  {
    var u, s := RStrip(b), a + b;
    RStripRest(b);
    assert forall j :: |a + u| <= j < |s| ==> s[j] == b[j - |a|];
    assert s[|a + u| - 1] == u[|u| - 1];
    RStripIs(s, |a + u|);
    assert s[..|a + u|] == a + u;
  }

  lemma RStripSign(t: string)
    ensures RStrip("=" + t) == "=" + RStrip(t)
  {
    if RStrip(t) != "" {
      RStripAppend("=", t);
    } else {
      RStripRest(t);
      assert forall j :: 1 <= j < |"=" + t| ==> ("=" + t)[j] == t[j - 1];
      RStripIs("=" + t, 1);
      assert ("=" + t)[..1] == "=";
    }
  }

  lemma LStripAppend(r: string, t: string)
    requires LStrip(r) != ""
    ensures LStrip(r + t) == LStrip(r) + t && !IsSpace(LStrip(r)[0])
  {
    var i := LStripCuts(r);
    assert forall j :: 0 <= j < |r| ==> (r + t)[j] == r[j];
    LStripIs(r + t, i);
    assert (r + t)[i..] == r[i..] + t;
  }

  lemma SplitLine(r: string, t: string)
    requires Strip(r) != ""
    ensures RStrip(r + "=" + t) == r + ("=" + RStrip(t))
    ensures Strip(r + "=" + t) == LStrip(r) + ("=" + RStrip(t))
    ensures LStrip(r) != "" && LStrip(r)[0] == Strip(r)[0] && !IsSpace(LStrip(r)[0])
  {
    var tail := "=" + t;
    assert r + "=" + t == r + tail;
    RStripSign(t);
    assert LStrip(r) != "";
    LStripAppend(r, tail);
    hide LStrip, IsSpace;
    RStripAppend(r, tail);
    RStripAppend(LStrip(r), tail);
  }

  lemma LStripIn(r: string, cs: string)
    requires NoneOf(r, cs)
    ensures NoneOf(LStrip(r), cs)
  {
    var i := LStripCuts(r);
  }

  lemma KeyAndRest(r: string, t: string)
    requires RawKey(r)
    ensures KeyEquals(LStrip(r) + ("=" + RStrip(t))) == Some((LStrip(r), LStrip(RStrip(t))))
  {
    SplitLine(r, t);
    LStripIn(r, "=");
    hide Strip, RStrip, LStrip, KeyEquals, NoneOf;
    var tail := "=" + RStrip(t);
    assert tail[1..] == RStrip(t);
    KeyEqualsSplit(LStrip(r), tail, LStrip(RStrip(t)));
  }

  lemma KeyClean(r: string, len: nat)
    requires len > |LStrip(r)|
    ensures Clean(LStrip(r), len) == Lower(Strip(r))
  {
    CleanIs(LStrip(r), len);
    var i := LStripCuts(r);
    LStripIs(LStrip(r), 0);
  }

  lemma UnquotedValue(line: string, key: string, w: string)
    requires line != "" && KeyEquals(line) == Some((key, w))
    ensures QuotedEntry(line) == None ==>
              ParseUnquoted(line) == Entry(Clean(key, |line|), var v := Strip(w[..SpanNot(w, ";#")]);
                                                               if v == "\"\"" || v == "''" then "" else v)
  {
    BareAfterKey(line);
    hide Clean, KeyEquals, ScanBare, QuotedEntry;
    var n := SpanNot(w, ";#");
    assert n == 0 ==> w[..n] == "" && Strip("") == "";
    assert n == 0 && w != "" ==> SpanIn(w, ";#") > 0;
  }

  lemma QuotedValueIs(line: string, key: string, w: string)
    requires KeyEquals(line) == Some((key, w))
    ensures QuotedEntry(line) ==
            if w != "" && w[0] == '"' && SpanNot(w[1..], "\"") > 0 then Some((key, w[1..1 + SpanNot(w[1..], "\"")]))
            else if w != "" && w[0] == '\'' && SpanNot(w[1..], "'") > 0 then Some((key, w[1..1 + SpanNot(w[1..], "'")]))
            else None
  {
    hide KeyEquals, SpanNot;
    assert ['"'] == "\"" && ['\''] == "'";
  }

  /** The parser gives the key before the sign and the value after it. */
  lemma KeyedLine(line: string, key: string, w: string, sec: string)
    requires line != "" && Trimmed(line) && line[0] !in "#;" && !(line[0] == '[' && line[|line| - 1] == ']')
    requires KeyEquals(line) == Some((key, w))
    ensures ParseLine(line, sec) == Entry(Clean(key, |line|), Value(w))
  {
    UnquotedValue(line, key, w);
    QuotedValueIs(line, key, w);
    hide Strip, KeyEquals, QuotedEntry, ParseUnquoted, Clean, ParseLine, SpanNot, Trimmed;
    PlainParse(line, sec);
  }

  lemma PlainParse(line: string, sec: string)
    requires line != "" && Trimmed(line) && line[0] !in "#;" && !(line[0] == '[' && line[|line| - 1] == ']')
    ensures ParseLine(line, sec) ==
            match QuotedEntry(line)
            case Some((k, v)) => Entry(Clean(k, |line|), v)
            case None => ParseUnquoted(line)
  {
    StripTrimmed(line);
    hide Strip, Trimmed, QuotedEntry, ParseUnquoted, Clean, ScanSection;
  }

  lemma ParsedEntry(r: string, t: string, sec: string)
    requires RawKey(r) && EndsPlainly(r, t)
    ensures ParseLine(RStrip(r + "=" + t), sec) == Entry(Lower(Strip(r)), Value(LStrip(RStrip(t))))
  {
    var whole, line := r + "=" + t, LStrip(r) + ("=" + RStrip(t));
    hide Strip, RStrip, LStrip, ParseLine, KeyEquals, Clean, Value, NoneOf, Lower, EndsPlainly;
    SplitLine(r, t);
    LineEnds(r, t);
    StripTwice(whole);
    StripTrimmed(line);
    ParseStripped(RStrip(whole), line, sec);
    KeyAndRest(r, t);
    KeyClean(r, |line|);
    KeyedLine(line, LStrip(r), LStrip(RStrip(t)), sec);
  }

  lemma WholeLine(r: string, t: string)
    requires OneLine(r) && OneLine(t)
    ensures OneLine(r + "=" + t)
  {
    NoneOfBoth(r, "=", "\n\0");
    NoneOfBoth(r + "=", t, "\n\0");
  }

  /** A line with a key stores it lower-case and trimmed, with the value. */
  lemma EntryRead(st: State, r: string, t: string, rest: string)
    requires st.kept == "" && RawKey(r) && OneLine(t) && EndsPlainly(r, t) && |r + "=" + t| < 1023
    ensures ReadOnce(st, r + "=" + t + "\n" + rest) == Some(WithEntry(st, Lower(Strip(r)), Value(LStrip(RStrip(t)))))
  {
    hide ReadOnce, Strip, RStrip, LStrip, ParseLine, Value, NoneOf, Lower, EndsPlainly, Continues;
    WholeLine(r, t);
    LineEnds(r, t);
    ParsedEntry(r, t, st.section);
    LineRead(st, r + "=" + t, rest);
  }

  /** The shape of the trimmed line. */
  lemma LineEnds(r: string, t: string)
    requires RawKey(r) && EndsPlainly(r, t)
    ensures var line := LStrip(r) + ("=" + RStrip(t));
            && line != "" && Trimmed(line) && line[0] !in "#;" && !(line[0] == '[' && line[|line| - 1] == ']')
    ensures !Continues(r + "=" + t)
  {
    SplitLine(r, t);
    hide Strip, LStrip, NoneOf;
    var tail := "=" + RStrip(t);
    assert tail[|tail| - 1] == if RStrip(t) == "" then '=' else RStrip(t)[|RStrip(t)| - 1];
    assert (LStrip(r) + tail)[|LStrip(r) + tail| - 1] == tail[|tail| - 1];
    assert (r + tail)[|r + tail| - 1] == tail[|tail| - 1];
    assert !IsSpace(tail[|tail| - 1]);
  }

  // ----- Values, as they may be written

  lemma StripEnds(b: string, x: string)
    requires Blank(b) && x != "" && !IsSpace(x[0])
    ensures LStrip(RStrip(b + x)) == RStrip(x)
  {
    RStripRest(x);
    if RStrip(x) == "" {
      assert false;
    }
    RStripAppend(b, x);
    var y := b + RStrip(x);
    assert RStrip(x)[0] == x[0];
    assert forall j :: 0 <= j < |b| ==> y[j] == b[j];
    assert y[|b|] == RStrip(x)[0];
    LStripIs(y, |b|);
    assert y[|b|..] == RStrip(x);
  }

  /** A single quote mark alone, which a comment after it would continue. */
  predicate LoneQuote(v: string) {
    v == "\"" || v == "'"
  }

  /** No comment, no quotes to remove. */
  predicate Bare(v: string) {
    Trimmed(v) && NoneOf(v, ";#") && !Quoted(v)
  }

  /** `e` is a comment with its mark. */
  predicate IsComment(e: string) {
    e != "" && e[0] in ";#"
  }

  lemma CommentKept(e: string)
    requires IsComment(e)
    ensures IsComment(RStrip(e))
  {
    RStripRest(e);
  }

  lemma BareValue(v: string, b: string, e: string)
    requires Bare(v) && v != "" && !LoneQuote(v) && Blank(b) && IsComment(e)
    ensures Value(v + b + e) == v
  {
    var w := v + b + e;
    NotOpened(v, b + e);
    assert w == v + (b + e);
    BeforeComment(v, b, e);
    assert v != "\"\"" && v != "''";
    hide Strip, SpanNot, NoneOf, Trimmed;
  }

  /** A value that is not quoted on its own does not become so by what follows it. */
  lemma NotOpened(v: string, x: string)
    requires v != "" && !Quoted(v) && !LoneQuote(v)
    ensures (v + x)[0] == '"' ==> SpanNot((v + x)[1..], "\"") == 0
    ensures (v + x)[0] == '\'' ==> SpanNot((v + x)[1..], "'") == 0
  {
    assert v == [v[0]] + v[1..];
    if |v| > 1 && (v[0] == '"' || v[0] == '\'') {
      assert (v + x)[1..][0] == v[1] == v[0];
    }
  }

  lemma BeforeComment(v: string, b: string, e: string)
    requires Trimmed(v) && NoneOf(v, ";#") && Blank(b) && IsComment(e) && v != ""
    ensures Strip((v + b + e)[..SpanNot(v + b + e, ";#")]) == v
  {
    var w, n := v + b + e, |v + b|;
    assert forall i :: 0 <= i < |v| ==> w[i] == v[i];
    assert forall i :: |v| <= i < n ==> w[i] == b[i - |v|];
    assert w[n] == e[0];
    SpanNotIs(w, ";#", n);
    assert w[..n] == "" + v + b;
    StripBetween("", v, b);
  }

  /** A quote mark that is alone takes the comment for quoted text. */
  lemma LoneQuoteOpens(v: string, b: string, e: string)
    requires LoneQuote(v) && Blank(b) && IsComment(e)
    ensures Value(v + b + e) != v
  {
    var w := v + b + e;
    var q := v[0];
    assert w[1..] == b + e;
    assert w[0] == q && w[1..] != "";
    assert (b + e)[0] != q by {
      assert b != "" ==> (b + e)[0] == b[0];
      assert b == "" ==> (b + e)[0] == e[0];
    }
    var n := SpanNot(b + e, v);
    assert n > 0;
    assert w[1..1 + n] == (b + e)[..n];
    assert (b + e)[..n][0] != q;
  }

  /** The text of a line: key, sign, blanks, value, blanks and a comment. */
  function Commented(r: string, b: string, v: string, b': string, e: string): string {
    r + "=" + (b + (v + b' + e))
  }

  lemma CommentedTail(b: string, v: string, b': string, e: string)
    requires Blank(b) && Blank(b') && IsComment(e) && OneLine(v) && OneLine(e) && v != "" && Trimmed(v)
    ensures OneLine(b + (v + b' + e))
    ensures LStrip(RStrip(b + (v + b' + e))) == v + b' + RStrip(e)
    ensures RStrip(b + (v + b' + e)) == b + (v + b' + RStrip(e))
  {
    var x := v + b' + e;
    NoneOfBoth(v, b', "\n\0");
    NoneOfBoth(v + b', e, "\n\0");
    NoneOfBoth(b, x, "\n\0");
    assert x[0] == v[0];
    StripEnds(b, x);
    CommentKept(e);
    hide RStrip, LStrip;
    RStripAppend(v + b', e);
    RStripAppend(b, x);
  }

  /** The last character of a comment, white space aside. */
  function LastOf(e: string): char
    requires IsComment(e)
  {
    CommentKept(e);
    RStrip(e)[|RStrip(e)| - 1]
  }

  lemma CommentedEnds(r: string, b: string, v: string, b': string, e: string)
    requires Blank(b) && Blank(b') && IsComment(e) && OneLine(v) && OneLine(e) && v != "" && Trimmed(v)
    requires Strip(r) != "" && LastOf(e) != '\\' && !(Strip(r)[0] == '[' && LastOf(e) == ']')
    ensures EndsPlainly(r, b + (v + b' + e))
  {
    CommentedTail(b, v, b', e);
    CommentKept(e);
    hide RStrip, LStrip, Strip;
    var u := b + (v + b' + RStrip(e));
    assert u[|u| - 1] == RStrip(e)[|RStrip(e)| - 1];
  }

  lemma CommentValue(v: string, b: string, e: string)
    requires Bare(v) && v != "" && Blank(b) && IsComment(e)
    ensures Value(v + b + e) == v <==> !LoneQuote(v)
  {
    hide Value;
    if LoneQuote(v) {
      LoneQuoteOpens(v, b, e);
    } else {
      BareValue(v, b, e);
    }
  }

  /** A value followed by a comment is stored without the comment, and exactly then: only
      a single quote mark on its own is not. */
  lemma CommentIgnored(st: State, r: string, b: string, v: string, b': string, e: string, rest: string)
    requires st.kept == "" && RawKey(r) && Blank(b) && Blank(b') && IsComment(e) && OneLine(v) && OneLine(e)
    requires v != "" && Bare(v) && |Commented(r, b, v, b', e)| < 1023
    requires LastOf(e) != '\\' && !(Strip(r)[0] == '[' && LastOf(e) == ']')
    ensures ReadOnce(st, Commented(r, b, v, b', e) + "\n" + rest) == Some(WithEntry(st, Lower(Strip(r)), v)) <==>
            !LoneQuote(v)
  {
    hide ReadOnce, Strip, RStrip, LStrip, Value, NoneOf, Lower, IsComment, Blank, LoneQuote, EndsPlainly, LastOf,
         Quoted, WithEntry;
    CommentedTail(b, v, b', e);
    CommentedEnds(r, b, v, b', e);
    CommentKept(e);
    CommentValue(v, b', RStrip(e));
    EntryRead(st, r, b + (v + b' + e), rest);
    OtherValue(st, Lower(Strip(r)), v, Value(v + b' + RStrip(e)));
  }

  // ----- No value, and quoted values

  /** The text of a line with something other than a bare value after the sign. */
  function Plain(r: string, b: string, x: string): string {
    r + "=" + (b + x)
  }

  lemma PlainTail(r: string, b: string, x: string)
    requires Blank(b) && OneLine(x) && x != "" && !IsSpace(x[0]) && Strip(r) != ""
    ensures OneLine(b + x) && LStrip(RStrip(b + x)) == RStrip(x) && RStrip(x) != ""
    ensures var end := RStrip(x)[|RStrip(x)| - 1];
            EndsPlainly(r, b + x) <==> end != '\\' && !(Strip(r)[0] == '[' && end == ']')
  {
    NoneOfBoth(b, x, "\n\0");
    StripEnds(b, x);
    RStripRest(x);
    assert RStrip(x) != "";
    RStripAppend(b, x);
    hide RStrip, LStrip, Strip, NoneOf;
    assert (b + RStrip(x))[|b + RStrip(x)| - 1] == RStrip(x)[|RStrip(x)| - 1];
  }

  /** A value with blanks around it and no comment is stored trimmed. */
  lemma ValueRead(st: State, r: string, b: string, v: string, b': string, rest: string)
    requires st.kept == "" && RawKey(r) && Blank(b) && Blank(b') && OneLine(v) && v != "" && Bare(v)
    requires |Plain(r, b, v + b')| < 1023
    requires v[|v| - 1] != '\\' && !(Strip(r)[0] == '[' && v[|v| - 1] == ']')
    ensures ReadOnce(st, Plain(r, b, v + b') + "\n" + rest) == Some(WithEntry(st, Lower(Strip(r)), v))
  {
    hide ReadOnce, Strip, RStrip, LStrip, Value, NoneOf, Lower, EndsPlainly, Blank, Quoted, IsSpace;
    ValueTail(v, b');
    PlainTail(r, b, v + b');
    BareAlone(v);
    EntryRead(st, r, b + (v + b'), rest);
  }

  lemma ValueTail(v: string, b: string)
    requires OneLine(v) && v != "" && Trimmed(v) && Blank(b)
    ensures OneLine(v + b) && RStrip(v + b) == v && !IsSpace((v + b)[0])
  {
    NoneOfBoth(v, b, "\n\0");
    StripBetween("", v, b);
    hide RStrip, NoneOf;
    assert "" + v + b == v + b && "" + v == v;
  }

  lemma BareAlone(v: string)
    requires Bare(v) && v != ""
    ensures Value(v) == v
  {
    SpanNotIs(v, ";#", |v|);
    assert v[..|v|] == v;
    StripTrimmed(v);
    assert v == [v[0]] + v[1..];
    if |v| > 1 {
      assert v[1..][0] == v[1];
    }
    assert v != "\"\"" && v != "''";
    hide Strip;
  }

  /** Nothing but a comment after the sign: the value is empty. */
  lemma NoValue(st: State, r: string, b: string, e: string, rest: string)
    requires st.kept == "" && RawKey(r) && Blank(b) && IsComment(e) && OneLine(e) && |Plain(r, b, e)| < 1023
    requires LastOf(e) != '\\' && !(Strip(r)[0] == '[' && LastOf(e) == ']')
    ensures ReadOnce(st, Plain(r, b, e) + "\n" + rest) == Some(WithEntry(st, Lower(Strip(r)), ""))
  {
    PlainTail(r, b, e);
    CommentKept(e);
    CommentOnly(RStrip(e));
    hide ReadOnce, Strip, RStrip, LStrip, Value, NoneOf, Lower, EndsPlainly;
    EntryRead(st, r, b + e, rest);
  }

  lemma CommentOnly(e: string)
    requires IsComment(e)
    ensures Value(e) == ""
  {
    assert e[..0] == "";
  }

  /** Between quotes everything is kept, blanks and comment marks included; what follows
      the second quote does not matter. */
  lemma QuotesKeep(st: State, r: string, b: string, q: char, x: string, tail: string, rest: string)
    requires st.kept == "" && RawKey(r) && Blank(b) && (q == '"' || q == '\'') && x != "" && q !in x
    requires OneLine(x) && OneLine(tail) && |Plain(r, b, [q] + x + [q] + tail)| < 1023
    requires EndsPlainly(r, b + ([q] + x + [q] + tail))
    ensures ReadOnce(st, Plain(r, b, [q] + x + [q] + tail) + "\n" + rest) ==
            Some(WithEntry(st, Lower(Strip(r)), x))
  {
    var y := [q] + x + [q] + tail;
    NoneOfBoth([q], x, "\n\0");
    NoneOfBoth([q] + x, [q], "\n\0");
    NoneOfBoth([q] + x + [q], tail, "\n\0");
    PlainTail(r, b, y);
    QuotedEnd(q, x, tail);
    InQuotes(q, x, RStrip([q] + tail)[1..]);
    hide ReadOnce, Strip, RStrip, LStrip, Value, NoneOf, Lower, EndsPlainly;
    EntryRead(st, r, b + y, rest);
  }

  lemma FirstKept(e: string)
    requires e != "" && !IsSpace(e[0])
    ensures RStrip(e) != "" && RStrip(e)[0] == e[0]
  {
    RStripRest(e);
  }

  lemma QuotedEnd(q: char, x: string, tail: string)
    requires q == '"' || q == '\''
    ensures RStrip([q] + tail) != "" && RStrip([q] + tail)[0] == q
    ensures RStrip([q] + x + [q] + tail) == [q] + x + [q] + RStrip([q] + tail)[1..]
  {
    var e := [q] + tail;
    assert e[0] == q;
    FirstKept(e);
    RStripAppend([q] + x, e);
    hide RStrip;
    var u := RStrip(e);
    assert u == [q] + u[1..];
    Regroup([q] + x, [q], tail);
    Regroup([q] + x, [q], u[1..]);
  }

  lemma Regroup(a: string, b: string, c: string)
    ensures a + b + c == a + (b + c)
  {
  }

  lemma InQuotes(q: char, x: string, tail: string)
    requires (q == '"' || q == '\'') && x != "" && q !in x
    ensures Value([q] + x + [q] + tail) == x
  {
    var w := [q] + x + [q] + tail;
    var y := w[1..];
    assert y == x + [q] + tail;
    assert forall i :: 0 <= i < |x| ==> y[i] == x[i];
    assert y[|x|] == q;
    SpanNotIs(y, [q], |x|);
    assert w[1..1 + |x|] == x;
    assert ['"'] == "\"" && ['\''] == "'";
  }

  /** Two quotes with nothing in between, alone or before a comment: an empty value. */
  lemma EmptyQuotes(st: State, r: string, b: string, q: char, b': string, e: string, rest: string)
    requires st.kept == "" && RawKey(r) && Blank(b) && Blank(b') && (q == '"' || q == '\'')
    requires (e == "" || IsComment(e)) && OneLine(e) && |Plain(r, b, [q, q] + b' + e)| < 1023
    requires EndsPlainly(r, b + ([q, q] + b' + e))
    ensures ReadOnce(st, Plain(r, b, [q, q] + b' + e) + "\n" + rest) == Some(WithEntry(st, Lower(Strip(r)), ""))
  {
    var y := [q, q] + b' + e;
    NoneOfBoth([q, q], b', "\n\0");
    NoneOfBoth([q, q] + b', e, "\n\0");
    PlainTail(r, b, y);
    TwoQuotes(q, b', e);
    hide ReadOnce, Strip, RStrip, LStrip, Value, NoneOf, Lower, EndsPlainly;
    EntryRead(st, r, b + y, rest);
  }

  lemma TwoQuotes(q: char, b: string, e: string)
    requires (q == '"' || q == '\'') && Blank(b) && (e == "" || IsComment(e))
    ensures Value(RStrip([q, q] + b + e)) == ""
  {
    hide Value, RStrip;
    if e == "" {
      StripBetween("", [q, q], b);
      assert "" + [q, q] + b == [q, q] + b + e;
      assert "" + [q, q] == [q, q];
      QuotesAlone(q);
    } else {
      CommentKept(e);
      RStripAppend([q, q] + b, e);
      QuotesBefore(q, b, RStrip(e));
    }
  }

  lemma QuotesAlone(q: char)
    requires q == '"' || q == '\''
    ensures Value([q, q]) == ""
  {
    var qq := [q, q];
    assert qq == "\"\"" || qq == "''";
    SpanNotIs(qq, ";#", 2);
    assert qq[..2] == qq;
    StripTrimmed(qq);
    assert qq[1..] == [q];
    hide Strip;
  }

  lemma QuotesBefore(q: char, b: string, e: string)
    requires (q == '"' || q == '\'') && Blank(b) && IsComment(e)
    ensures Value([q, q] + b + e) == ""
  {
    var qq := [q, q];
    assert qq == "\"\"" || qq == "''";
    var w := qq + b + e;
    assert w[0] == q && w[1..][0] == q;
    BeforeComment(qq, b, e);
    hide Strip;
  }

  lemma OtherValue(st: State, k: string, v: string, w: string)
    ensures WithEntry(st, k, v) == WithEntry(st, k, w) <==> v == w
  {
    assert WithEntry(st, k, v).sets[|st.sets|].1 == Some(v);
    assert WithEntry(st, k, w).sets[|st.sets|].1 == Some(w);
  }

  // ----- Lines over more than one line, the last line, and errors

  lemma ClassifyJoined(a: string, chunk: string)
    requires chunk != ""
    ensures Classify(a, chunk, false) == Classify("", a + chunk, false)
  {
    hide CString, RStrip;
    assert "" + (a + chunk) == a + chunk;
  }

  lemma JoinedTurn(st: State, a: string, chunk: string)
    requires st.kept == "" && chunk != "" && (a == "" || !Classify("", a + chunk, false).Skip?)
    ensures Turn(st.(kept := a), chunk, false) == Turn(st, a + chunk, false)
  {
    ClassifyJoined(a, chunk);
    hide Classify, ParseLine, Apply;
    assert st.(kept := a).(kept := "") == st.(kept := "") == st;
  }

  lemma NotSkipped(a: string, d: string)
    requires OneLine(a) && OneLine(d) && a != ""
    ensures !Classify("", a + (d + "\n"), false).Skip?
  {
    NoneOfBoth(a, d, "\n\0");
    assert a + (d + "\n") == a + d + "\n";
    ClassifyLine(a + d);
    hide Classify, RStrip, NoneOf;
  }

  /** The second read, on top of a kept line, is the read of the joined line. */
  lemma JoinedRead(st: State, a: string, d: string, rest: string)
    requires st.kept == "" && OneLine(a) && OneLine(d) && |a + d| < 1023
    ensures ReadOnce(st.(kept := a), d + "\n" + rest) == ReadOnce(st, a + d + "\n" + rest)
    ensures NextChunk(st.(kept := a), d + "\n" + rest) == d + "\n"
  {
    NoneOfBoth(a, d, "\n\0");
    ShortRead(st, a + d, rest);
    KeptRead(st.(kept := a), d, rest);
    hide ReadOnce, Turn, Classify, NextChunk, NoneOf;
    Regroup(a, d, "\n");
    if a != "" {
      NotSkipped(a, d);
    }
    JoinedTurn(st, a, d + "\n");
  }

  lemma KeptRead(st: State, d: string, rest: string)
    requires OneLine(d) && |st.kept| + |d| < 1023
    ensures ReadOnce(st, d + "\n" + rest) == Turn(st, d + "\n", false)
    ensures NextChunk(st, d + "\n" + rest) == d + "\n"
  {
    hide Turn;
    var line := d + "\n";
    var text := line + rest;
    assert text[|d|] == '\n' && forall i :: 0 <= i < |d| ==> text[i] == d[i];
    SpanNotIs(text, "\n", |d|);
    assert text[..|d| + 1] == line;
    assert NextChunk(st, text) == line && !HitEnd(text, line, LINE_SIZE - |st.kept|);
  }

  /** A line that ends in a backslash is loaded together with the next one, as if they
      were one line without the backslash. */
  lemma ContinuedLine(st: State, a: string, b: string, d: string, rest: string)
    requires st.kept == "" && OneLine(a) && Blank(b) && OneLine(d) && |a + "\\" + b| < 1023 && |a + d| < 1023
    ensures LoadFrom(st, a + "\\" + b + "\n" + (d + "\n" + rest)) == LoadFrom(st, a + d + "\n" + rest)
  {
    var line, more := a + "\\" + b, d + "\n" + rest;
    NoneOfBoth(a, "\\", "\n\0");
    NoneOfBoth(a + "\\", b, "\n\0");
    NoneOfBoth(a, d, "\n\0");
    BackslashEnds(a, b);
    assert (a + "\\")[..|a|] == a;
    LineRead(st, line, more);
    ShortRead(st, line, more);
    JoinedRead(st, a, d, rest);
    ShortRead(st, a + d, rest);
    hide ReadOnce, Turn, NextChunk, RStrip, NoneOf, Classify;
    assert (line + "\n" + more)[|line + "\n"|..] == more;
    assert (d + "\n" + rest)[|d + "\n"|..] == rest;
    assert (a + d + "\n" + rest)[|a + d + "\n"|..] == rest;
  }

  lemma BackslashKept(b: string)
    requires Blank(b)
    ensures RStrip("\\" + b) == "\\"
  {
    var s := "\\" + b;
    assert s[0] == '\\' && !IsSpace(s[0]);
    assert forall j :: 1 <= j < |s| ==> s[j] == b[j - 1];
    RStripIs(s, 1);
    assert s[..1] == "\\";
  }

  lemma BackslashEnds(a: string, b: string)
    requires Blank(b)
    ensures RStrip(a + "\\" + b) == a + "\\"
  {
    hide RStrip, Blank;
    BackslashKept(b);
    RStripAppend(a, "\\" + b);
    Regroup(a, "\\", b);
  }

  /** The last line needs no newline, if it has two characters or more; a single character
      is dropped. */
  lemma LastLine(st: State, line: string)
    requires st.kept == "" && OneLine(line) && line != ""
    ensures |line| >= 1023 ==> ReadOnce(st, line) == None
    ensures |line| == 1 ==> ReadOnce(st, line) == Some(st)
    ensures 2 <= |line| < 1023 ==> ReadOnce(st, line) == ReadOnce(st, line + "\n" + "")
  {
    LastChunk(st, line);
    if |line| >= 1023 {
      LongChunk(st, line[..1023]);
    } else {
      LastTurn(st, line);
    }
    if 2 <= |line| < 1023 {
      LineRead(st, line, "");
    }
    hide Turn, NextChunk, HitEnd, RStrip, NoneOf, ParseLine, Apply;
  }

  lemma LastChunk(st: State, line: string)
    requires st.kept == "" && OneLine(line) && line != ""
    ensures NextChunk(st, line) == if |line| >= 1023 then line[..1023] else line
    ensures HitEnd(line, NextChunk(st, line), LINE_SIZE) <==> |line| < 1023
  {
    SpanNotIs(line, "\n", |line|);
    hide SpanNot;
    assert line[|line| - 1] != '\n';
  }

  lemma LastTurn(st: State, line: string)
    requires st.kept == "" && OneLine(line) && line != ""
    ensures Turn(st, line, true) ==
            if |line| == 1 then Some(st)
            else if Continues(line) then Some(st.(kept := RStrip(line)[..|RStrip(line)| - 1]))
            else Some(Apply(st, ParseLine(RStrip(line), st.section)))
  {
    ClassifyLast(line);
    hide Classify, RStrip, NoneOf, ParseLine, Apply, Continues;
    assert st.(kept := "") == st;
  }

  lemma ClassifyLast(line: string)
    requires OneLine(line) && line != ""
    ensures Classify("", line, true) ==
            if |line| == 1 then Skip
            else if Continues(line) then Continued(RStrip(line)[..|RStrip(line)| - 1])
            else Complete(RStrip(line))
  {
    hide CString, RStrip, NoneOf;
    LastIn(line);
  }

  lemma LastIn(line: string)
    requires OneLine(line)
    ensures CString("" + line) == line
  {
    assert NoneOf(line, "\0");
    hide CString, NoneOf;
    CStringSelf(line);
    assert "" + line == line;
  }

  /** A line is an error if and only if it is no comment, no header, and has no sign or no
      key before it. */
  lemma MalformedIff(input: string, sec: string)
    ensures var line := Strip(input);
            ParseLine(input, sec).Malformed? <==>
            && line != "" && line[0] !in "#;" && !(line[0] == '[' && line[|line| - 1] == ']')
            && ('=' !in line || line[0] == '=')
  {
    var line := Strip(input);
    if line != "" {
      SignIff(line);
      NoKeyNoEntry(line);
    }
    hide Strip, KeyEquals, Clean, ScanSection;
    if line != "" && KeyEquals(line).Some? {
      UnquotedValue(line, KeyEquals(line).value.0, KeyEquals(line).value.1);
    }
    hide QuotedEntry, ParseUnquoted;
  }

  lemma SignIff(line: string)
    requires line != ""
    ensures KeyEquals(line).Some? <==> '=' in line && line[0] != '='
  {
    var n := SpanNot(line, "=");
    if n < |line| {
      LStripIs(line[n..], 0);
      assert line[n] == '=';
    } else {
      assert line[n..] == "";
    }
  }

  lemma NoKeyNoEntry(line: string)
    requires line != ""
    ensures KeyEquals(line).None? ==> QuotedEntry(line) == None && ParseUnquoted(line) == Malformed
  {
    var n := SpanNot(line, "=");
    assert n == |line| ==> line[n..] == "";
    if 0 < n < |line| {
      LStripIs(line[n..], 0);
    }
  }

  lemma {:induction false} ErrorsStay(st: State, text: string)
    requires |st.kept| + 1 < LINE_SIZE
    ensures LoadFrom(st, text).Some? ==> LoadFrom(st, text).value.errs >= st.errs
    decreases |text|
  {
    hide NextChunk, Classify, ParseLine, HitEnd;
    if text != "" && ReadOnce(st, text).Some? {
      ErrorsStay(ReadOnce(st, text).value, text[|NextChunk(st, text)|..]);
    }
  }

  /** A malformed line makes the load fail, whatever else the file holds. */
  lemma MalformedFails(st: State, line: string, rest: string)
    requires st.kept == "" && OneLine(line) && 0 < |line| < 1023 && !Continues(line)
    requires ParseLine(RStrip(line), st.section).Malformed?
    ensures LoadFrom(st, line + "\n" + rest).Some? ==> LoadFrom(st, line + "\n" + rest).value.errs > 0
  {
    LineRead(st, line, rest);
    hide ReadOnce, NextChunk, ParseLine, RStrip, NoneOf, Continues;
    var text := line + "\n" + rest;
    assert text != "";
    ErrorsStay(ReadOnce(st, text).value, text[|NextChunk(st, text)|..]);
  }

  /** So a file with such a line is not loaded. */
  lemma MalformedFileFails(line: string, rest: string)
    requires OneLine(line) && 0 < |line| < 1023 && !Continues(line) && ParseLine(RStrip(line), "").Malformed?
    ensures LoadSets(line + "\n" + rest) == None
  {
    MalformedFails(START, line, rest);
    hide LoadFrom, ParseLine, RStrip, NoneOf, Continues;
  }
}

/** C strings as character sequences: white space, case, trimming, and the prefix
    scans that `sscanf` conversions make. */
module Text {

  // ----- Characters, in the C locale

  predicate IsSpace(c: char) {
    c == ' ' || '\t' <= c <= '\r'
  }

  function ToLower(c: char): char {
    if 'A' <= c <= 'Z' then (c as int + 32) as char else c
  }

  predicate IsLower(s: string) {
    forall i :: 0 <= i < |s| ==> !('A' <= s[i] <= 'Z')
  }

  function Lower(s: string): (r: string)
    ensures |r| == |s|
    ensures forall i :: 0 <= i < |s| ==> r[i] == ToLower(s[i])
  {
    seq(|s|, i requires 0 <= i < |s| => ToLower(s[i]))
  }

  function Take(s: string, n: nat): string {
    if n <= |s| then s[..n] else s
  }

  // ----- Trimming

  function LStrip(s: string): (r: string)
    ensures |r| <= |s|
  {
    if s != "" && IsSpace(s[0]) then LStrip(s[1..]) else s
  }

  function RStrip(s: string): (r: string)
    ensures r <= s
    ensures r != "" ==> !IsSpace(r[|r| - 1])
  {
    if s != "" && IsSpace(s[|s| - 1]) then RStrip(s[..|s| - 1]) else s
  }

  function Strip(s: string): (r: string)
    ensures |r| <= |s|
  {
    RStrip(LStrip(s))
  }

  /** Neither starts nor ends with white space. */
  predicate Trimmed(s: string) {
    s == "" || (!IsSpace(s[0]) && !IsSpace(s[|s| - 1]))
  }

  /** The six white-space characters of the C locale: blank, tab, newline, vertical tab,
      form feed and carriage return. */
  lemma SpacesAre(c: char)
    ensures IsSpace(c) <==> c as int == 32 || 9 <= c as int <= 13
  {
  }

  /** The letters with the codes 65 to 90 become those from 97 on, in order. */
  lemma LettersAre(c: char)
    ensures ToLower(c) as int == if 65 <= c as int <= 90 then 97 + (c as int - 65) else c as int
  {
  }

  // ----- Prefix scans

  /** The length of the longest prefix of `s` with no character of `stop`. */
  function SpanNot(s: string, stop: string): (n: nat)
    ensures n <= |s|
    ensures forall i :: 0 <= i < n ==> s[i] !in stop
    ensures n < |s| ==> s[n] in stop
  {
    if s == "" || s[0] in stop then 0 else 1 + SpanNot(s[1..], stop)
  }

  /** The length of the longest prefix of `s` made of characters of `set`. */
  function SpanIn(s: string, set_: string): (n: nat)
    ensures n <= |s|
    ensures forall i :: 0 <= i < n ==> s[i] in set_
    ensures n < |s| ==> s[n] !in set_
  {
    if s == "" || s[0] !in set_ then 0 else 1 + SpanIn(s[1..], set_)
  }

  /** The string held in a buffer: what comes before the first NUL. */
  function CString(b: string): string {
    b[..SpanNot(b, "\0")]
  }

  // ----- Facts

  lemma {:induction false} LStripIs(s: string, i: nat)
    requires i <= |s| && (forall j :: 0 <= j < i ==> IsSpace(s[j])) && (i < |s| ==> !IsSpace(s[i]))
    ensures LStrip(s) == s[i..]
  {
    if i > 0 {
      LStripIs(s[1..], i - 1);
      assert s[1..][i - 1..] == s[i..];
    }
  }

  lemma {:induction false} RStripIs(s: string, n: nat)
    requires n <= |s| && (forall j :: n <= j < |s| ==> IsSpace(s[j])) && (n > 0 ==> !IsSpace(s[n - 1]))
    ensures RStrip(s) == s[..n]
  {
    if n < |s| {
      RStripIs(s[..|s| - 1], n);
      assert s[..|s| - 1][..n] == s[..n];
    }
  }

  /** Trimming keeps exactly the part between the outer white space. */
  lemma StripIs(s: string, i: nat, n: nat)
    requires i <= n <= |s|
    requires forall j :: 0 <= j < i ==> IsSpace(s[j])
    requires forall j :: n <= j < |s| ==> IsSpace(s[j])
    requires i < n ==> !IsSpace(s[i]) && !IsSpace(s[n - 1])
    ensures Strip(s) == s[i..n]
  {
    if i < n {
      LStripIs(s, i);
      RStripIs(s[i..], n - i);
    } else {
      LStripIs(s, |s|);
    }
  }

  lemma StripTrimmed(s: string)
    requires Trimmed(s)
    ensures Strip(s) == s && RStrip(s) == s
  {
    StripIs(s, 0, |s|);
    RStripIs(s, |s|);
  }

  lemma LStripCuts(s: string) returns (i: nat)
    ensures i <= |s| && LStrip(s) == s[i..] && (i < |s| ==> !IsSpace(s[i]))
    ensures forall j :: 0 <= j < i ==> IsSpace(s[j])
  {
    i := 0;
    while i < |s| && IsSpace(s[i])
      invariant i <= |s| && forall j :: 0 <= j < i ==> IsSpace(s[j])
    {
      i := i + 1;
    }
    LStripIs(s, i);
  }

  lemma {:induction false} RStripRest(s: string)
    ensures forall i :: |RStrip(s)| <= i < |s| ==> IsSpace(s[i])
  {
    if s != "" && IsSpace(s[|s| - 1]) {
      RStripRest(s[..|s| - 1]);
    }
  }

  /** What is left is trimmed, and everything when there was nothing to trim. */
  lemma StripShape(s: string)
    ensures Trimmed(Strip(s)) && (Strip(s) == s <==> Trimmed(s))
  {
    var i := LStripCuts(s);
    if Trimmed(s) {
      StripTrimmed(s);
    }
  }

  lemma StripIn(s: string)
    ensures forall c :: c in Strip(s) ==> c in s
  {
    var i := LStripCuts(s);
    forall c | c in Strip(s) ensures c in s {
      assert c in s[i..];
    }
  }

  lemma LowerIsLower(s: string)
    requires IsLower(s)
    ensures Lower(s) == s
  {
  }

  /** A scan that stops at `c` after a stretch without stop characters. */
  lemma SpanNotIs(s: string, stop: string, n: nat)
    requires n <= |s| && (forall i :: 0 <= i < n ==> s[i] !in stop) && (n < |s| ==> s[n] in stop)
    ensures SpanNot(s, stop) == n
  {
  }

  // ----- The two in-place helpers

  /** `strlen`. */
  method StrLen(buf: array<char>) returns (n: nat)
    requires '\0' in buf[..]
    ensures n < buf.Length && buf[n] == '\0' && n == SpanNot(buf[..], "\0")
    ensures CString(buf[..]) == buf[..n]
  {
    n := 0;
    while buf[n] != '\0'
      invariant n < buf.Length
      invariant forall i :: 0 <= i < n ==> buf[i] != '\0'
      decreases buf.Length - n
    {
      assert '\0' !in buf[..n + 1];
      n := n + 1;
    }
    SpanNotIs(buf[..], "\0", n);
  }

  /** `memmove` of `n` characters and their NUL from `from` to the start. */
  method MoveDown(buf: array<char>, from: nat, n: nat)
    requires from + n < buf.Length && buf[from + n] == '\0'
    requires forall i :: from <= i < from + n ==> buf[i] != '\0'
    modifies buf
    ensures '\0' in buf[..] && CString(buf[..]) == old(buf[from..from + n])
  {
    forall i | 0 <= i <= n {
      buf[i] := buf[from + i];
    }
    assert buf[n] == '\0';
    SpanNotIs(buf[..], "\0", n);
  }

  /** The two scans of `strstrip`: the first character to keep and the end. */
  method StripBounds(buf: array<char>) returns (s: nat, last: nat)
    requires '\0' in buf[..]
    ensures s <= last <= |CString(buf[..])| < buf.Length
    ensures CString(buf[..])[s..last] == Strip(CString(buf[..]))
  {
    last := StrLen(buf);
    ghost var str := CString(buf[..]);
    s := 0;
    while IsSpace(buf[s]) && buf[s] != '\0'
      invariant s <= |str|
      invariant forall j :: 0 <= j < s ==> IsSpace(str[j])
      decreases |str| - s
    {
      s := s + 1;
    }
    while last > s
      invariant s <= last <= |str|
      invariant forall j :: last <= j < |str| ==> IsSpace(str[j])
    {
      if !IsSpace(buf[last - 1]) {
        break;
      }
      last := last - 1;
    }
    StripIs(str, s, last);
  }

  /** `strstrip`: trims the string in its own buffer and returns the new length. */
  method StrStrip(buf: array?<char>) returns (n: nat)
    requires buf != null ==> '\0' in buf[..]
    modifies buf
    ensures buf == null ==> n == 0
    ensures buf != null ==> '\0' in buf[..] && n == |CString(buf[..])|
    ensures buf != null ==> CString(buf[..]) == Strip(old(CString(buf[..])))
  {
    if buf == null {
      return 0;
    }
    var s, last := StripBounds(buf);
    ghost var str := CString(buf[..]);
    assert forall i :: s <= i < last ==> str[s..last][i - s] == buf[i] != '\0';
    buf[last] := '\0';
    n := last - s;
    assert buf[s..s + n] == str[s..last];
    MoveDown(buf, s, n);
  }

  /** `strlwc`: lower-cases at most `len - 1` characters of `inp` into `out`, which
      may be the same buffer. */
  method StrLwc(inp: array?<char>, out: array?<char>, len: nat) returns (ok: bool)
    requires inp != null ==> '\0' in inp[..]
    requires out != null ==> len <= out.Length
    modifies out
    ensures ok <==> inp != null && out != null && len > 0
    ensures !ok && out != null ==> out[..] == old(out[..])
    ensures ok ==> '\0' in out[..] && CString(out[..]) == Lower(Take(old(CString(inp[..])), len - 1))
  {
    if inp == null || out == null || len == 0 {
      return false;
    }
    ghost var n := StrLen(inp);
    ghost var str := CString(inp[..]);
    var i := 0;
    while inp[i] != '\0' && i < len - 1
      invariant i <= n && i < len
      invariant forall j :: i <= j <= n ==> inp[j] == old(inp[j])
      invariant forall j :: 0 <= j < i ==> out[j] == ToLower(str[j])
      decreases n - i
    {
      out[i] := ToLower(inp[i]);
      i := i + 1;
    }
    out[i] := '\0';
    SpanNotIs(out[..], "\0", i);
    assert out[..i] == Lower(Take(str, len - 1));
    return true;
  }
}

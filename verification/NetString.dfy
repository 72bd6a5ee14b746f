/** The bounded append that builds configuration text in a fixed buffer. */
module NetString {

  /** A C string: no NUL inside. */
  type CText = s: string | '\0' !in s

  /** The characters of a C string, its NUL included. */
  function CharAt(s: CText, i: nat): (c: char)
    requires i <= |s|
    ensures c == '\0' <==> i == |s|
  {
    if i < |s| then s[i] else '\0'
  }

  function Min(a: int, b: int): int {
    if a < b then a else b
  }

  /** `net_stringcopy` to `&buf[at]`: copies what fits, always terminates when there
      is room at all, and returns the full length of the source. */
  method NetStringCopy(buf: array<char>, at: nat, src: CText, siz: int) returns (len: nat)
    requires siz > 0 ==> at + siz <= buf.Length
    modifies buf
    ensures len == |src|
    ensures siz <= 0 ==> buf[..] == old(buf[..])
    ensures siz > 0 ==> buf[..at] == old(buf[..at])
    ensures siz > 0 ==> var m := Min(|src|, siz - 1);
                        && buf[at..at + m] == src[..m] && buf[at + m] == '\0'
                        && buf[at + m + 1..] == old(buf[at + m + 1..])
  {
    if siz <= 0 {
      return |src|;
    }
    var d, s, n := at, 0, siz - 1;
    var ended := false;
    while n != 0 && !ended
      invariant 0 <= n < siz && d == at + s
      invariant if ended then s == |src| + 1 && n > 0 else s == siz - 1 - n && s <= |src|
      invariant s <= siz - 1
      invariant forall i :: 0 <= i < s ==> buf[at + i] == CharAt(src, i)
      invariant buf[..at] == old(buf[..at])
      invariant buf[at + s..] == old(buf[at + s..])
      decreases n, !ended
    {
      buf[d] := CharAt(src, s);
      ended := buf[d] == '\0';
      d, s := d + 1, s + 1;
      if !ended {
        n := n - 1;
      }
    }
    if n == 0 {
      buf[d] := '\0';
      while CharAt(src, s) != '\0'
        invariant s <= |src|
        decreases |src| - s
      {
        s := s + 1;
      }
      s := s + 1;
    }
    ghost var m := Min(|src|, siz - 1);
    assert forall i :: 0 <= i < m ==> buf[at + i] == CharAt(src, i) == src[i];
    assert buf[at..at + m] == src[..m];
    assert ended ==> buf[at + |src|] == CharAt(src, |src|);
    return s - 1;
  }

  // ----- The chain of appends

  function Concat(parts: seq<CText>): CText {
    if parts == [] then "" else Concat(parts[..|parts| - 1]) + parts[|parts| - 1]
  }

  /** The buffer of size L holds the first L - 1 characters of `text`, terminated. */
  ghost predicate Holds(buf: array<char>, text: CText)
    reads buf
  {
    var m := Min(|text|, buf.Length - 1);
    buf.Length > 0 && buf[..m] == text[..m] && buf[m] == '\0'
  }

  /** `pos += net_stringcopy(&buf[pos], src, pos < req_len ? req_len - pos : 0)`. */
  method Append(buf: array<char>, pos: nat, src: CText, ghost text: CText) returns (pos': nat)
    requires buf.Length > 0 && pos == |text| && (text == "" || Holds(buf, text))
    modifies buf
    ensures pos' == |text + src| && Holds(buf, text + src)
  {
    var len := NetStringCopy(buf, pos, src, if pos < buf.Length then buf.Length - pos else 0);
    pos' := pos + len;
    AppendHolds(buf, text, src);
  }

  lemma AppendHolds(buf: array<char>, text: CText, src: CText)
    requires buf.Length > 0
    requires |text| < buf.Length ==> var m := Min(|src|, buf.Length - |text| - 1);
               buf[..|text|] == text && buf[|text|..|text| + m] == src[..m] && buf[|text| + m] == '\0'
    requires |text| >= buf.Length ==> Holds(buf, text)
    ensures Holds(buf, text + src)
  {
    var all := text + src;
    var m := Min(|all|, buf.Length - 1);
    if |text| < buf.Length {
      assert buf[..m] == buf[..|text|] + buf[|text|..m];
      assert all[..m] == text + src[..m - |text|];
    } else {
      assert all[..m] == text[..m];
    }
  }

  /** Any list of strings, appended one after another: the buffer holds the first
      L - 1 characters of the whole, and the position is the full length even after
      truncation. With no string the buffer is not written. */
  method AppendAll(buf: array<char>, parts: seq<CText>) returns (pos: nat)
    requires buf.Length > 0
    modifies buf
    ensures pos == |Concat(parts)|
    ensures parts != [] ==> Holds(buf, Concat(parts))
    ensures parts == [] ==> buf[..] == old(buf[..])
  {
    pos := 0;
    for i := 0 to |parts|
      invariant pos == |Concat(parts[..i])|
      invariant if i == 0 then buf[..] == old(buf[..]) else Holds(buf, Concat(parts[..i]))
    {
      assert parts[..i + 1][..i] == parts[..i];
      pos := Append(buf, pos, parts[i], Concat(parts[..i]));
    }
    assert parts[..|parts|] == parts;
  }

  const RESOLV_SIZE: nat := 64

  /** The text that `rk_network_dns_set` builds and writes, up to its NUL. */
  method DnsText(dns: CText, dns2: CText) returns (buf: array<char>, pos: nat)
    ensures fresh(buf) && buf.Length == RESOLV_SIZE
    ensures var text := "nameserver " + dns + "\n" + "nameserver " + dns2 + "\n";
            Holds(buf, text) && pos == |text|
  {
    buf := new char[RESOLV_SIZE];
    pos := 0;
    var server: CText, eol: CText := "nameserver ", "\n";
    pos := Append(buf, pos, server, "");
    pos := Append(buf, pos, dns, "" + server);
    pos := Append(buf, pos, eol, "" + server + dns);
    pos := Append(buf, pos, server, "" + server + dns + eol);
    pos := Append(buf, pos, dns2, "" + server + dns + eol + server);
    pos := Append(buf, pos, eol, "" + server + dns + eol + server + dns2);
    assert "" + server == server;
  }
}

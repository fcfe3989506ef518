/** The handful of Python `str` operations the table is built from, on `seq<char>`. */
module Strings {

  function Max(a: int, b: int): int { if a < b then b else a }

  /** `s * n`: `s` repeated `n` times; empty when `n` is zero or negative. */
  function Repeat(s: string, n: int): (r: string)
    ensures |r| == Max(n, 0) * |s|
    decreases n
  {
    if n <= 0 then "" else s + Repeat(s, n - 1)
  }

  /** A one-character string repeated is that character throughout. */
  lemma {:induction false} RepeatOne(s: string, n: int)
    requires |s| == 1
    ensures forall i | 0 <= i < |Repeat(s, n)| :: Repeat(s, n)[i] == s[0]
    decreases n
  {
    if n > 0 {
      RepeatOne(s, n - 1);
      assert Repeat(s, n) == s + Repeat(s, n - 1);
    }
  }

  /** Repeating a string brings in no character it does not hold. */
  lemma {:induction false} RepeatAvoids(s: string, n: int, c: char)
    requires c !in s
    ensures c !in Repeat(s, n)
    decreases n
  {
    if n > 0 {
      RepeatAvoids(s, n - 1, c);
    }
  }

  /** `" " * n`. */
  function Spaces(n: int): (r: string)
    ensures |r| == Max(n, 0)
  {
    Repeat(" ", n)
  }

  /** `" " * n` holds nothing but spaces. */
  lemma SpacesOnly(n: int)
    ensures forall i | 0 <= i < |Spaces(n)| :: Spaces(n)[i] == ' '
  {
    RepeatOne(" ", n);
  }

  /** `r` holds `text` at offset `off` and nothing but spaces around it. */
  predicate Padded(r: string, text: string, off: nat)
  {
    off + |text| <= |r| && r == Spaces(off) + text + Spaces(|r| - off - |text|)
  }

  /** No spaces at all, for a zero or negative count. */
  lemma NoSpaces(n: int)
    requires n <= 0
    ensures Spaces(n) == ""
  {
  }

  /** Padding brings in no character other than the space. */
  lemma PaddedAvoids(r: string, text: string, off: nat, c: char)
    requires Padded(r, text, off) && c != ' ' && c !in text
    ensures c !in r
  {
    RepeatAvoids(" ", off, c);
    RepeatAvoids(" ", |r| - off - |text|, c);
  }

  /** `s.ljust(w)`: the text first, padded with spaces up to width `w`; never truncates. */
  function LJust(s: string, w: int): (r: string)
    ensures |r| == Max(|s|, w)
    ensures Padded(r, s, 0)
  {
    var r := s + Spaces(w - |s|);
    NoSpaces(0);
    if w < |s| then NoSpaces(w - |s|); r
    else assert r == Spaces(0) + s + Spaces(|r| - |s|); r
  }

  /** `s.rjust(w)`: the text last, padded with spaces up to width `w`; never truncates. */
  function RJust(s: string, w: int): (r: string)
    ensures |r| == Max(|s|, w)
    ensures Padded(r, s, |r| - |s|)
  {
    var r := Spaces(w - |s|) + s;
    NoSpaces(0);
    if w < |s| then NoSpaces(w - |s|); assert r == Spaces(0) + s + Spaces(0); r
    else assert r == Spaces(|r| - |s|) + s + Spaces(0); r
  }

  /** The left margin `s.center(w)` gives a text of length `len`: half of the total margin
      `m`, plus one when both `m` and `w` are odd (CPython's `m/2 + (m & w & 1)`). */
  function CenterLeftPad(len: nat, w: int): (left: nat)
    ensures w <= len ==> left == 0
    ensures w > len ==> left + left == w - len || left + left == w - len + 1 || left + left == w - len - 1
  {
    if w <= len then 0
    else
      var m := w - len;
      m / 2 + (if m % 2 == 1 && w % 2 == 1 then 1 else 0)
  }

  /** `s.center(w)`: the text centred in width `w`; never truncates. */
  function Center(s: string, w: int): (r: string)
    ensures |r| == Max(|s|, w)
    ensures Padded(r, s, CenterLeftPad(|s|, w))
  {
    if w <= |s| then
      NoSpaces(0);
      assert s == Spaces(0) + s + Spaces(0);
      s
    else
      var left := CenterLeftPad(|s|, w);
      Spaces(left) + s + Spaces(w - |s| - left)
  }

  /** When the margin is odd, the extra space goes to the left exactly when the text has
      an even length, and to the right otherwise. */
  lemma CenterOddMargin(len: nat, w: int)
    requires w > len && (w - len) % 2 == 1
    ensures var left := CenterLeftPad(len, w);
            (len % 2 == 0 ==> left == w - len - left + 1) &&
            (len % 2 == 1 ==> left + 1 == w - len - left)
  {
  }

  /** With an even margin both sides get the same number of spaces. */
  lemma CenterEvenMargin(len: nat, w: int)
    requires w > len && (w - len) % 2 == 0
    ensures CenterLeftPad(len, w) == w - len - CenterLeftPad(len, w)
  {
  }

  /** The characters `str.strip()` removes (those for which `str.isspace()` holds). */
  predicate IsWhitespace(c: char)
  {
    || c == ' ' || c == '\t' || c == '\n' || c == '\r' || c == '\U{000B}' || c == '\U{000C}'
    || ('\U{001C}' <= c <= '\U{001F}') || c == '\U{0085}' || c == '\U{00A0}' || c == '\U{1680}'
    || ('\U{2000}' <= c <= '\U{200A}') || c == '\U{2028}' || c == '\U{2029}'
    || c == '\U{202F}' || c == '\U{205F}' || c == '\U{3000}'
  }

  ghost predicate AllWhitespace(s: string)
  {
    forall i | 0 <= i < |s| :: IsWhitespace(s[i])
  }

  function TrimLeft(s: string): (r: string)
    ensures |r| <= |s|
  {
    if |s| > 0 && IsWhitespace(s[0]) then TrimLeft(s[1..]) else s
  }

  function TrimRight(s: string): (r: string)
    ensures |r| <= |s|
  {
    if |s| > 0 && IsWhitespace(s[|s| - 1]) then TrimRight(s[..|s| - 1]) else s
  }

  /** `s.strip()`: `s` without its leading and trailing whitespace. */
  function Strip(s: string): (r: string)
    ensures |r| <= |s|
  {
    TrimLeft(TrimRight(s))
  }

  lemma {:induction false} TrimLeftAfterWhitespace(p: string, s: string)
    requires AllWhitespace(p)
    ensures TrimLeft(p + s) == TrimLeft(s)
  {
    if |p| > 0 {
      assert (p + s)[0] == p[0];
      assert (p + s)[1..] == p[1..] + s;
      TrimLeftAfterWhitespace(p[1..], s);
    } else {
      assert p + s == s;
    }
  }

  lemma {:induction false} TrimRightBeforeWhitespace(s: string, q: string)
    requires AllWhitespace(q)
    ensures TrimRight(s + q) == TrimRight(s)
  {
    if |q| > 0 {
      var q' := q[..|q| - 1];
      assert (s + q)[|s + q| - 1] == q[|q| - 1];
      assert (s + q)[..|s + q| - 1] == s + q';
      TrimRightBeforeWhitespace(s, q');
    } else {
      assert s + q == s;
    }
  }

  lemma {:induction false} TrimRightAfterWhitespace(p: string, s: string)
    requires AllWhitespace(p)
    ensures TrimRight(s) == "" ==> TrimRight(p + s) == ""
    ensures TrimRight(s) != "" ==> TrimRight(p + s) == p + TrimRight(s)
    decreases |s|
  {
    if |s| > 0 && IsWhitespace(s[|s| - 1]) {
      assert (p + s)[|p + s| - 1] == s[|s| - 1];
      assert (p + s)[..|p + s| - 1] == p + s[..|s| - 1];
      TrimRightAfterWhitespace(p, s[..|s| - 1]);
    } else if |s| > 0 {
      assert (p + s)[|p + s| - 1] == s[|s| - 1];
    } else {
      assert p + s == p;
      TrimRightBeforeWhitespace("", p);
      assert "" + p == p;
    }
  }

  /** Padding with spaces on either side is undone by `strip()`. */
  lemma StripPadded(r: string, text: string, off: nat)
    requires Padded(r, text, off)
    ensures Strip(r) == Strip(text)
  {
    var p, q := Spaces(off), Spaces(|r| - off - |text|);
    SpacesOnly(off);
    SpacesOnly(|r| - off - |text|);
    assert AllWhitespace(p) && AllWhitespace(q);
    TrimRightBeforeWhitespace(p + text, q);
    TrimRightAfterWhitespace(p, text);
    if TrimRight(text) != "" {
      TrimLeftAfterWhitespace(p, TrimRight(text));
    }
  }

  /** `sep.join(parts)`. */
  function Join(sep: string, parts: seq<string>): string
  {
    if |parts| == 0 then ""
    else if |parts| == 1 then parts[0]
    else parts[0] + sep + Join(sep, parts[1..])
  }

  /** Two joins have the same length when their separators and their parts, one by one,
      have the same lengths. */
  lemma {:induction false} JoinSameShape(sep1: string, parts1: seq<string>, sep2: string, parts2: seq<string>)
    requires |sep1| == |sep2| && |parts1| == |parts2|
    requires forall i | 0 <= i < |parts1| :: |parts1[i]| == |parts2[i]|
    ensures |Join(sep1, parts1)| == |Join(sep2, parts2)|
  {
    if |parts1| > 1 {
      JoinSameShape(sep1, parts1[1..], sep2, parts2[1..]);
    }
  }

  /** A character in neither the separator nor any part is not in the join. */
  lemma {:induction false} JoinAvoids(sep: string, parts: seq<string>, c: char)
    requires c !in sep
    requires forall i | 0 <= i < |parts| :: c !in parts[i]
    ensures c !in Join(sep, parts)
  {
    if |parts| > 1 {
      JoinAvoids(sep, parts[1..], c);
    }
  }

  /** `s.find(c)` for one character: the first index holding `c`, or -1. */
  function Find(s: string, c: char): (r: int)
    ensures r == -1 <==> c !in s
    ensures r != -1 ==> 0 <= r < |s| && s[r] == c && c !in s[..r]
  {
    if |s| == 0 then -1
    else if s[0] == c then 0
    else
      var r := Find(s[1..], c);
      if r == -1 then -1
      else
        assert s[..r + 1] == [s[0]] + s[1..][..r];
        r + 1
  }

  /** A prefix free of `c` shifts where `c` is found. */
  lemma {:induction false} FindAfter(a: string, b: string, c: char)
    requires c !in a
    ensures Find(a + b, c) == if c in b then |a| + Find(b, c) else -1
  {
    if |a| > 0 {
      assert (a + b)[0] == a[0];
      assert (a + b)[1..] == a[1..] + b;
      assert c !in a[1..];
      FindAfter(a[1..], b, c);
    } else {
      assert a + b == b;
    }
  }

  /** `s.splitlines()` for text whose only line break is `'\n'`. */
  function SplitLines(s: string): seq<string>
    decreases |s|
  {
    if s == "" then []
    else
      var k := Find(s, '\n');
      if k == -1 then [s] else [s[..k]] + SplitLines(s[k + 1..])
  }

  /** A first line free of line breaks, closed by a newline, splits off as is. */
  lemma SplitFirstLine(l: string, rest: string)
    requires '\n' !in l
    ensures SplitLines(l + "\n" + rest) == [l] + SplitLines(rest)
  {
    var s := l + "\n" + rest;
    assert s == l + ("\n" + rest);
    FindAfter(l, "\n" + rest, '\n');
    assert Find("\n" + rest, '\n') == 0;
    assert s[..|l|] == l;
    assert s[|l| + 1..] == rest;
  }

  /** Lines free of line breaks, joined by newline and closed by one more newline, split
      back into the same lines. */
  lemma {:induction false} SplitJoinedLines(lines: seq<string>)
    requires |lines| > 0
    requires forall i | 0 <= i < |lines| :: '\n' !in lines[i]
    ensures SplitLines(Join("\n", lines) + "\n") == lines
  {
    Recons(lines);
    if |lines| == 1 {
      SplitFirstLine(lines[0], "");
      assert Join("\n", lines) + "\n" == lines[0] + "\n" + "";
    } else {
      var rest := Join("\n", lines[1..]) + "\n";
      JoinedFirst(lines);
      SplitFirstLine(lines[0], rest);
      SplitJoinedLines(lines[1..]);
    }
  }

  /** A non-empty sequence is its first element followed by the rest. */
  lemma Recons<T>(s: seq<T>)
    requires |s| > 0
    ensures [s[0]] + s[1..] == s
  {
  }

  /** Joining by newline and closing with a newline puts the first line and its newline in
      front of the rest done the same way. */
  lemma JoinedFirst(lines: seq<string>)
    requires |lines| > 1
    ensures Join("\n", lines) + "\n" == lines[0] + "\n" + (Join("\n", lines[1..]) + "\n")
  {
    assert Join("\n", lines) == lines[0] + "\n" + Join("\n", lines[1..]);
  }
}

/** The string helpers of the JavaScript and Python sources: `trim`, `strip`
    and ASCII `toLowerCase`.  Case folding beyond ASCII is not modelled. */
module Text {

  // The white space that String.prototype.trim removes.
  predicate IsSpace(c: char) {
    var n := c as int;
    9 <= n <= 13 || n == 32 || n == 0xA0 || n == 0x1680 || 0x2000 <= n <= 0x200A ||
    n == 0x2028 || n == 0x2029 || n == 0x202F || n == 0x205F || n == 0x3000 || n == 0xFEFF
  }

  predicate Trimmed(s: string) {
    s != [] ==> !IsSpace(s[0]) && !IsSpace(s[|s| - 1])
  }

  function TrimLeft(s: string): (r: string)
    ensures |r| <= |s| && (|r| == |s| ==> r == s)
    ensures r != [] ==> !IsSpace(r[0])
    ensures s == [] || !IsSpace(s[0]) <==> r == s
  {
    if s != [] && IsSpace(s[0]) then TrimLeft(s[1..]) else s
  }

  function TrimRight(s: string): (r: string)
    ensures r <= s
    ensures r != [] ==> !IsSpace(r[|r| - 1])
    ensures s == [] || !IsSpace(s[|s| - 1]) <==> r == s
  {
    if s != [] && IsSpace(s[|s| - 1]) then TrimRight(s[..|s| - 1]) else s
  }

  // Trimming yields a trimmed string, and moves nothing exactly when there is nothing to trim.
  function Trim(s: string): (r: string)
    ensures Trimmed(r) && |r| <= |s|
    ensures Trimmed(s) <==> r == s
    ensures |r| == |s| ==> r == s
  {
    var l := TrimLeft(s);
    var r := TrimRight(l);
    assert r != [] ==> r[0] == l[0];
    r
  }

  // The white space that Python's str.strip removes: it also knows U+001C to U+001F and U+0085, but
  // not U+FEFF.
  predicate IsPythonSpace(c: char) {
    var n := c as int;
    0x1C <= n <= 0x1F || n == 0x85 || (IsSpace(c) && n != 0xFEFF)
  }

  function Strip(s: string): (r: string)
    ensures |r| <= |s|
    ensures r != [] ==> !IsPythonSpace(r[0]) && !IsPythonSpace(r[|r| - 1])
  {
    if s != [] && IsPythonSpace(s[0]) then Strip(s[1..])
    else if s != [] && IsPythonSpace(s[|s| - 1]) then Strip(s[..|s| - 1])
    else s
  }

  // s[i..j] is what is left of s: only white space is dropped, and none is left at its ends.
  ghost predicate IsInner(s: string, i: int, j: int, space: char -> bool) {
    && 0 <= i <= j <= |s|
    && (forall k :: 0 <= k < i ==> space(s[k])) && (forall k :: j <= k < |s| ==> space(s[k]))
    && (i < j ==> !space(s[i]) && !space(s[j - 1]))
  }

  lemma {:induction false} TrimLeftDrops(s: string)
    ensures TrimLeft(s) == s[|s| - |TrimLeft(s)|..]
    ensures forall k :: 0 <= k < |s| - |TrimLeft(s)| ==> IsSpace(s[k])
  {
    if s != [] && IsSpace(s[0]) {
      TrimLeftDrops(s[1..]);
      assert forall k :: 0 < k < |s| ==> s[k] == s[1..][k - 1];
    }
  }

  lemma {:induction false} TrimRightDrops(s: string)
    ensures forall k :: |TrimRight(s)| <= k < |s| ==> IsSpace(s[k])
  {
    if s != [] && IsSpace(s[|s| - 1]) { TrimRightDrops(s[..|s| - 1]); }
  }

  /** Trimming drops the white space at both ends and nothing else. */
  lemma TrimIsInner(s: string) returns (i: nat, j: nat)
    ensures IsInner(s, i, j, IsSpace) && Trim(s) == s[i..j]
  {
    var l := TrimLeft(s);
    TrimLeftDrops(s);
    TrimRightDrops(l);
    i, j := |s| - |l|, |s| - |l| + |TrimRight(l)|;
  }

  lemma InnerOfTail(s: string, i: int, j: int, space: char -> bool)
    requires s != [] && space(s[0]) && IsInner(s[1..], i, j, space)
    ensures IsInner(s, i + 1, j + 1, space) && s[1..][i..j] == s[i + 1..j + 1]
  {
    assert forall k :: 0 < k < |s| ==> s[k] == s[1..][k - 1];
  }

  lemma InnerOfFront(s: string, i: int, j: int, space: char -> bool)
    requires s != [] && space(s[|s| - 1]) && IsInner(s[..|s| - 1], i, j, space)
    ensures IsInner(s, i, j, space) && s[..|s| - 1][i..j] == s[i..j]
  {}

  /** And so does stripping. */
  lemma {:induction false} StripIsInner(s: string) returns (i: nat, j: nat)
    ensures IsInner(s, i, j, IsPythonSpace) && Strip(s) == s[i..j]
    decreases |s|
  {
    if s != [] && IsPythonSpace(s[0]) {
      i, j := StripIsInner(s[1..]);
      InnerOfTail(s, i, j, IsPythonSpace);
      i, j := i + 1, j + 1;
    } else if s != [] && IsPythonSpace(s[|s| - 1]) {
      i, j := StripIsInner(s[..|s| - 1]);
      InnerOfFront(s, i, j, IsPythonSpace);
    } else {
      i, j := 0, |s|;
    }
  }

  predicate IsDigit(c: char) { '0' <= c <= '9' }

  // A lower-case hexadecimal digit.
  predicate IsHex(c: char) { IsDigit(c) || 'a' <= c <= 'f' }

  function LowerChar(c: char): (r: char)
    ensures IsSpace(r) <==> IsSpace(c)
  {
    if 'A' <= c <= 'Z' then (c as int + 32) as char else c
  }

  function Lower(s: string): (r: string)
    ensures |r| == |s|
    ensures forall i :: 0 <= i < |s| ==> r[i] == LowerChar(s[i])
  {
    seq(|s|, i requires 0 <= i < |s| => LowerChar(s[i]))
  }

  function Take(s: string, n: nat): (r: string)
    ensures r <= s && |r| == if |s| <= n then |s| else n
    ensures |s| <= n <==> r == s
  {
    if |s| <= n then s else s[..n]
  }

  // JavaScript's a || b on strings: the empty string is falsy.
  function OrElse(a: string, b: string): string {
    if a != "" then a else b
  }

  // String.prototype.split on one character.
  function Split(s: string, c: char): (r: seq<string>)
    ensures r != []
  {
    if s == [] then [""]
    else var r := Split(s[1..], c);
         if s[0] == c then [""] + r else [[s[0]] + r[0]] + r[1..]
  }

  // Array.prototype.join with one character.
  function Join(parts: seq<string>, c: char): string {
    if parts == [] then "" else if |parts| == 1 then parts[0] else parts[0] + [c] + Join(parts[1..], c)
  }

  lemma {:induction false} SplitHasNone(s: string, c: char)
    ensures forall k :: 0 <= k < |Split(s, c)| ==> c !in Split(s, c)[k]
  {
    if s != [] {
      SplitHasNone(s[1..], c);
      var r := Split(s[1..], c);
      assert s[0] != c ==> c !in [s[0]] + r[0];
    }
  }

  lemma {:induction false} SplitFirst(part: string, rest: string, c: char)
    requires c !in part
    ensures Split(part + [c] + rest, c) == [part] + Split(rest, c)
  {
    var s := part + [c] + rest;
    if part == [] {
      assert s[1..] == rest;
    } else {
      SplitFirst(part[1..], rest, c);
      assert s[1..] == part[1..] + [c] + rest;
      assert part == [part[0]] + part[1..];
    }
  }

  lemma {:induction false} SplitWhole(part: string, c: char)
    requires c !in part
    ensures Split(part, c) == [part]
  {
    if part != [] {
      SplitWhole(part[1..], c);
      assert part == [part[0]] + part[1..];
    }
  }

  // The parts of a text, joined again, are the text.
  lemma {:induction false} JoinSplit(s: string, c: char)
    ensures Join(Split(s, c), c) == s
  {
    if s != [] {
      var r, all := Split(s[1..], c), Split(s, c);
      JoinSplit(s[1..], c);
      assert s == [s[0]] + s[1..];
      if s[0] == c {
        assert all[1..] == r;
      } else {
        assert all[1..] == r[1..];
      }
    }
  }

  // Parts without the separator come back from the joined text.
  lemma {:induction false} SplitJoin(parts: seq<string>, c: char)
    requires parts != [] && forall k :: 0 <= k < |parts| ==> c !in parts[k]
    ensures Split(Join(parts, c), c) == parts
  {
    if |parts| == 1 {
      SplitWhole(parts[0], c);
    } else {
      SplitJoin(parts[1..], c);
      SplitFirst(parts[0], Join(parts[1..], c), c);
    }
  }
}

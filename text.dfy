/**
 * The string operations of Python that the butler's code relies on:
 * `str.strip()`, `str.split(sep)`, `sep.join(parts)`, `str.splitlines()`,
 * substring search, and the decimal rendering of an index.
 */
module Text {
  import opened Wrappers

  /** `c` is one of `chars`. */
  predicate OneOf(c: char, chars: seq<char>)
    decreases |chars|
  {
    chars != [] && (c == chars[0] || OneOf(c, chars[1..]))
  }

  /** The characters at which Python's `str.splitlines()` breaks a line. */
  const LineBreaks: seq<char> :=
    ['\n', '\U{0b}', '\U{0c}', '\r', '\U{1c}', '\U{1d}', '\U{1e}', '\U{85}', '\U{2028}', '\U{2029}']

  /** The characters for which Python's `str.isspace()` holds, the ones
      `str.strip()` removes: the line breaks and the other blanks. */
  const Spaces: seq<char> :=
    LineBreaks + ['\t', '\U{1f}', ' ', '\U{a0}', '\U{1680}',
                  '\U{2000}', '\U{2001}', '\U{2002}', '\U{2003}', '\U{2004}', '\U{2005}',
                  '\U{2006}', '\U{2007}', '\U{2008}', '\U{2009}', '\U{200a}',
                  '\U{202f}', '\U{205f}', '\U{3000}']

  predicate IsSpace(c: char) {
    OneOf(c, Spaces)
  }

  predicate IsLineBreak(c: char) {
    OneOf(c, LineBreaks)
  }

  /** Python truthiness of an optional string: present and not empty. */
  predicate Truthy(o: Option<string>) {
    o.Some? && o.value != []
  }

  predicate NoLineBreak(s: string) {
    forall c | c in s :: !IsLineBreak(c)
  }

  /** No leading and no trailing whitespace. */
  predicate Stripped(s: string) {
    s == [] || (!IsSpace(s[0]) && !IsSpace(s[|s| - 1]))
  }

  /** `s.lstrip()`: the longest suffix of `s` that does not start with whitespace. */
  function StripStart(s: string): (r: string)
    ensures |r| <= |s| && r == s[|s| - |r|..]
    ensures r == [] || !IsSpace(r[0])
    decreases |s|
  {
    if s != [] && IsSpace(s[0]) then StripStart(s[1..]) else s
  }

  /** What `StripStart` drops is whitespace only. */
  lemma {:induction false} StripStartDrops(s: string)
    ensures forall i :: 0 <= i < |s| - |StripStart(s)| ==> IsSpace(s[i])
    decreases |s|
  {
    if s != [] && IsSpace(s[0]) {
      StripStartDrops(s[1..]);
      assert forall i :: 1 <= i < |s| ==> s[i] == s[1..][i - 1];
    }
  }

  /** `s.rstrip()`: the longest prefix of `s` that does not end with whitespace. */
  function StripEnd(s: string): (r: string)
    ensures |r| <= |s| && r == s[..|r|]
    ensures r == [] || !IsSpace(r[|r| - 1])
    decreases |s|
  {
    if s != [] && IsSpace(s[|s| - 1]) then StripEnd(s[..|s| - 1]) else s
  }

  /** What `StripEnd` drops is whitespace only. */
  lemma {:induction false} StripEndDrops(s: string)
    ensures forall i :: |StripEnd(s)| <= i < |s| ==> IsSpace(s[i])
    decreases |s|
  {
    if s != [] && IsSpace(s[|s| - 1]) {
      StripEndDrops(s[..|s| - 1]);
    }
  }

  /** `s.strip()`. */
  function Strip(s: string): (r: string)
    ensures Stripped(r)
    ensures |r| <= |s|
  {
    StripEnd(StripStart(s))
  }

  /** Each piece, stripped. */
  function StripEach(pieces: seq<string>): (r: seq<string>)
    ensures |r| == |pieces|
  {
    seq(|pieces|, i requires 0 <= i < |pieces| => Strip(pieces[i]))
  }

  /** Piece `i`, stripped, is result `i`. */
  lemma StripEachAt(pieces: seq<string>, i: nat)
    requires i < |pieces|
    ensures StripEach(pieces)[i] == Strip(pieces[i])
  {
  }

  /** What `Strip` keeps is one contiguous slice of its input. */
  lemma StripIsSlice(s: string)
    ensures var a := |s| - |StripStart(s)|;
            a + |Strip(s)| <= |s| && Strip(s) == s[a..a + |Strip(s)|]
  {
    var t := StripStart(s);
    var r := StripEnd(t);
    assert r == s[|s| - |t|..][..|r|];
    PrefixOfSuffix(s, |s| - |t|, |r|);
  }

  lemma PrefixOfSuffix(s: string, a: nat, n: nat)
    requires a + n <= |s|
    ensures s[a..][..n] == s[a..a + n]
  {
  }

  /** Stripping an already stripped string changes nothing. */
  lemma StripStripped(s: string)
    requires Stripped(s)
    ensures Strip(s) == s
  {
  }

  /** `t` occurs in `s` starting at index `i`. */
  predicate OccursAt(s: string, t: string, i: int) {
    0 <= i && i + |t| <= |s| && s[i..i + |t|] == t
  }

  /** Python's `t in s`. */
  predicate Contains(s: string, t: string) {
    exists i | 0 <= i <= |s| :: OccursAt(s, t, i)
  }

  /** The first index at or after `i` where `t` occurs in `s`. */
  function FindFrom(s: string, t: string, i: nat): (r: Option<nat>)
    ensures r.Some? ==> i <= r.value && OccursAt(s, t, r.value)
    ensures r.Some? ==> forall j :: i <= j < r.value ==> !OccursAt(s, t, j)
    ensures r.None? ==> forall j :: i <= j ==> !OccursAt(s, t, j)
    decreases |s| - i
  {
    if i + |t| > |s| then None
    else if OccursAt(s, t, i) then Some(i)
    else FindFrom(s, t, i + 1)
  }

  /** Python's `s.find(t)`, with `None` for -1. */
  function Find(s: string, t: string): (r: Option<nat>)
    ensures r.None? <==> !Contains(s, t)
    ensures r.Some? ==> OccursAt(s, t, r.value) && forall j :: 0 <= j < r.value ==> !OccursAt(s, t, j)
  {
    FindFrom(s, t, 0)
  }

  /** A string splits around an occurrence. */
  lemma SplitAround(s: string, t: string, k: int)
    requires OccursAt(s, t, k)
    ensures s == s[..k] + t + s[k + |t|..]
  {
    assert s == s[..k] + s[k..k + |t|] + s[k + |t|..];
  }

  /** An occurrence in `b` is an occurrence in `a + b`, shifted by `|a|`. */
  lemma OccursAfter(a: string, b: string, t: string, k: int)
    requires OccursAt(b, t, k)
    ensures OccursAt(a + b, t, |a| + k)
  {
    assert (a + b)[|a| + k..|a| + k + |t|] == b[k..k + |t|];
  }

  /** An occurrence inside a slice is an occurrence in the whole string. */
  lemma OccursInSlice(s: string, t: string, a: int, b: int, i: int)
    requires 0 <= a <= b <= |s|
    requires OccursAt(s[a..b], t, i)
    ensures OccursAt(s, t, a + i)
  {
    forall k | 0 <= k < |t| ensures s[a + i + k] == t[k] {
      assert s[a..b][i..i + |t|][k] == t[k];
    }
    assert s[a + i..a + i + |t|] == t;
  }

  lemma ContainsSlice(s: string, t: string, a: int, b: int)
    requires 0 <= a <= b <= |s|
    requires !Contains(s, t)
    ensures !Contains(s[a..b], t)
  {
    if Contains(s[a..b], t) {
      var i :| OccursAt(s[a..b], t, i);
      OccursInSlice(s, t, a, b, i);
    }
  }

  /** `sep.join(parts)`. */
  function Join(sep: string, parts: seq<string>): string
    decreases |parts|
  {
    if |parts| == 0 then []
    else if |parts| == 1 then parts[0]
    else parts[0] + sep + Join(sep, parts[1..])
  }

  /** `''.join(parts)`. */
  function Concat(parts: seq<string>): string {
    Join([], parts)
  }

  /** Python's `s.split(sep)` for a non-empty separator: the pieces between the
      non-overlapping occurrences of `sep`, found left to right. */
  function Split(s: string, sep: string): (r: seq<string>)
    requires sep != []
    ensures |r| >= 1
    decreases |s|
  {
    match Find(s, sep)
    case None => [s]
    case Some(k) => [s[..k]] + Split(s[k + |sep|..], sep)
  }

  /** No piece of a split holds the separator, and every character of a piece
      is a character of the input. */
  lemma {:induction false} SplitPieces(s: string, sep: string, p: string)
    requires sep != []
    requires p in Split(s, sep)
    ensures !Contains(p, sep)
    ensures forall c | c in p :: c in s
    decreases |s|
  {
    match Find(s, sep)
    case None =>
    case Some(k) =>
      var rest := s[k + |sep|..];
      if p == s[..k] {
        if Contains(p, sep) {
          var j :| OccursAt(s[..k], sep, j);
          OccursInSlice(s, sep, 0, k, j);
        }
      } else {
        assert p in Split(rest, sep);
        SplitPieces(rest, sep, p);
      }
  }

  /** Joining the pieces of a split with the same separator gives back the string. */
  lemma {:induction false} JoinSplit(s: string, sep: string)
    requires sep != []
    ensures Join(sep, Split(s, sep)) == s
    decreases |s|
  {
    match Find(s, sep)
    case None =>
    case Some(k) =>
      var rest := s[k + |sep|..];
      JoinSplit(rest, sep);
      JoinCons(sep, s[..k], Split(rest, sep));
      SplitAround(s, sep, k);
  }

  lemma ConcatTwo(x: string, y: string)
    ensures Concat([x, y]) == x + y
  {
    assert [x, y][1..] == [y];
    assert Join([], [y]) == y;
    assert Join([], [x, y]) == x + [] + y;
    assert x + [] == x;
  }

  lemma JoinTwo(sep: string, x: string, y: string)
    ensures Join(sep, [x, y]) == x + sep + y
  {
    assert [x, y][1..] == [y];
  }

  /** A text followed by the concatenation of two parts. */
  lemma ConcatTwoAfter(x: string, y: string, z: string)
    ensures x + Concat([y, z]) == x + y + z
  {
    ConcatTwo(y, z);
    assert x + (y + z) == x + y + z;
  }

  /** Joining a first part in front of non-empty other parts. */
  lemma JoinCons(sep: string, first: string, rest: seq<string>)
    requires rest != []
    ensures Join(sep, [first] + rest) == first + sep + Join(sep, rest)
  {
    assert ([first] + rest)[1..] == rest;
  }

  /** The partner of `JoinSplit` for a one-character separator: splitting a join
      gives back the parts when no part contains the separator. */
  lemma {:induction false} SplitJoin(c: char, parts: seq<string>)
    requires parts != []
    requires forall p | p in parts :: c !in p
    ensures Split(Join([c], parts), [c]) == parts
    decreases |parts|
  {
    var p := parts[0];
    assert forall j :: 0 <= j < |p| ==> !OccursAt(p, [c], j) by {
      forall j | 0 <= j < |p| ensures !OccursAt(p, [c], j) {
        assert p in parts && p[j] in p;
        assert p[j..j + 1] == [p[j]];
      }
    }
    if |parts| == 1 {
      assert Find(p, [c]).None?;
    } else {
      var s := Join([c], parts);
      var tail := Join([c], parts[1..]);
      assert s == p + [c] + tail;
      assert OccursAt(s, [c], |p|);
      forall j | 0 <= j < |p| ensures !OccursAt(s, [c], j) {
        assert s[j] == p[j] && p[j] in p;
        assert s[j..j + 1] == [s[j]];
      }
      assert Find(s, [c]) == Some(|p|);
      assert s[|p| + 1..] == tail;
      assert s[..|p|] == p;
      SplitJoin(c, parts[1..]);
      assert Split(s, [c]) == [p] + Split(tail, [c]);
      assert parts == [p] + parts[1..];
    }
  }

  /** Appending one more part to a non-empty join adds the separator and the part. */
  lemma {:induction false} JoinSnoc(sep: string, parts: seq<string>, last: string)
    requires parts != []
    ensures Join(sep, parts + [last]) == Join(sep, parts) + sep + last
    decreases |parts|
  {
    if |parts| == 1 {
      assert parts + [last] == [parts[0], last];
    } else {
      assert (parts + [last])[1..] == parts[1..] + [last];
      JoinSnoc(sep, parts[1..], last);
    }
  }

  /** Appending one more part to a concatenation. */
  lemma ConcatSnoc(parts: seq<string>, last: string)
    ensures Concat(parts + [last]) == Concat(parts) + last
  {
    if parts == [] {
      assert parts + [last] == [last];
    } else {
      JoinSnoc([], parts, last);
      assert Concat(parts) + [] == Concat(parts);
    }
  }

  /** A join begins with its first part. */
  lemma JoinStartsWith(sep: string, first: string, rest: seq<string>)
    ensures |first| <= |Join(sep, [first] + rest)|
    ensures Join(sep, [first] + rest)[..|first|] == first
  {
    if rest != [] {
      assert ([first] + rest)[1..] == rest;
    }
  }

  /** The sum of the lengths of `parts`. */
  function TotalLength(parts: seq<string>): nat
    decreases |parts|
  {
    if parts == [] then 0 else |parts[0]| + TotalLength(parts[1..])
  }

  lemma {:induction false} ConcatLength(parts: seq<string>)
    ensures |Concat(parts)| == TotalLength(parts)
    decreases |parts|
  {
    if |parts| > 1 {
      ConcatLength(parts[1..]);
    } else if |parts| == 1 {
      assert parts[1..] == [];
    }
  }

  /** In a join, part `i` sits right after parts `0..i-1` and `i` separators. */
  lemma {:induction false} JoinAt(sep: string, parts: seq<string>, i: nat)
    requires i < |parts|
    ensures OccursAt(Join(sep, parts), parts[i], TotalLength(parts[..i]) + i * |sep|)
    decreases |parts|
  {
    assert [parts[0]] + parts[1..] == parts;
    if i == 0 {
      JoinStartsWith(sep, parts[0], parts[1..]);
    } else {
      var tail := Join(sep, parts[1..]);
      JoinCons(sep, parts[0], parts[1..]);
      JoinAt(sep, parts[1..], i - 1);
      assert parts[..i][1..] == parts[1..][..i - 1];
      var before := TotalLength(parts[1..][..i - 1]);
      assert TotalLength(parts[..i]) == |parts[0]| + before;
      OccursAfter(parts[0] + sep, tail, parts[i], before + (i - 1) * |sep|);
      assert (i - 1) * |sep| + |sep| == i * |sep|;
    }
  }

  /** Part `i` of a concatenation that follows a text `x`. */
  lemma ConcatAtAfter(x: string, parts: seq<string>, i: nat)
    requires i < |parts|
    ensures OccursAt(x + Concat(parts), parts[i], |x| + TotalLength(parts[..i]))
  {
    ConcatAt(parts, i);
    OccursAfter(x, Concat(parts), parts[i], TotalLength(parts[..i]));
  }

  /** In a concatenation, part `i` sits right after parts `0..i-1`. */
  lemma ConcatAt(parts: seq<string>, i: nat)
    requires i < |parts|
    ensures OccursAt(Concat(parts), parts[i], TotalLength(parts[..i]))
  {
    JoinAt([], parts, i);
  }

  /** The pieces of `s` between line breaks, in order (`s.splitlines()`, see `LinePiecesCover`). */
  function LinePieces(s: string): (r: seq<string>)
    ensures |r| >= 1
    decreases |s|
  {
    if s == [] then [[]]
    else
      var rest := LinePieces(s[1..]);
      if IsLineBreak(s[0]) then [[]] + rest
      else [[s[0]] + rest[0]] + rest[1..]
  }

  /** No piece holds a line break. */
  lemma {:induction false} LinePiecesNoBreak(s: string)
    ensures forall p | p in LinePieces(s) :: NoLineBreak(p)
    decreases |s|
  {
    if s != [] {
      var rest := LinePieces(s[1..]);
      LinePiecesNoBreak(s[1..]);
      if !IsLineBreak(s[0]) {
        var first := [s[0]] + rest[0];
        assert NoLineBreak(rest[0]) by {
          assert rest[0] in rest;
        }
        assert NoLineBreak(first) by {
          assert forall c | c in first :: c == s[0] || c in rest[0];
        }
        assert LinePieces(s) == [first] + rest[1..];
        assert forall p | p in rest[1..] :: p in rest;
      }
    }
  }

  /** Every character of a piece is a character of the input. */
  lemma {:induction false} LinePiecesChars(s: string, p: string, c: char)
    requires p in LinePieces(s) && c in p
    ensures c in s
    decreases |s|
  {
    if s != [] {
      var rest := LinePieces(s[1..]);
      if IsLineBreak(s[0]) {
        assert p in rest;
        LinePiecesChars(s[1..], p, c);
      } else if p == [s[0]] + rest[0] {
        if c != s[0] {
          assert c in rest[0] && rest[0] in rest;
          LinePiecesChars(s[1..], rest[0], c);
        }
      } else {
        assert p in rest[1..];
        assert p in rest;
        LinePiecesChars(s[1..], p, c);
      }
    }
  }

  /** Every character of the input that is not a line break lands in some piece. */
  lemma {:induction false} LinePiecesCover(s: string, c: char)
    requires c in s && !IsLineBreak(c)
    ensures exists p :: p in LinePieces(s) && c in p
    decreases |s|
  {
    var rest := LinePieces(s[1..]);
    var first := [s[0]] + rest[0];
    if s[0] == c {
      assert LinePieces(s) == [first] + rest[1..];
      assert c in first && first in LinePieces(s);
    } else {
      assert c in s[1..];
      LinePiecesCover(s[1..], c);
      var p :| p in rest && c in p;
      if IsLineBreak(s[0]) {
        assert LinePieces(s) == [[]] + rest;
        assert p in LinePieces(s);
      } else if p == rest[0] {
        assert LinePieces(s) == [first] + rest[1..];
        assert c in first && first in LinePieces(s);
      } else {
        assert LinePieces(s) == [first] + rest[1..];
        assert p in rest[1..];
        assert p in LinePieces(s);
      }
    }
  }

  /** A text without line breaks is a single line. */
  lemma {:induction false} LinePiecesOfLine(p: string)
    requires NoLineBreak(p)
    ensures LinePieces(p) == [p]
    decreases |p|
  {
    if p != [] {
      assert p[0] in p;
      LinePiecesOfLine(p[1..]);
      assert [p[0]] + p[1..] == p;
    }
  }

  /** A line, a newline, then more text: the line is the first piece. */
  lemma {:induction false} LinePiecesAfterLine(p: string, s: string)
    requires NoLineBreak(p)
    ensures LinePieces(p + "\n" + s) == [p] + LinePieces(s)
    decreases |p|
  {
    if p == [] {
      assert p + "\n" + s == ['\n'] + s;
      LinePiecesBreak('\n', s);
    } else {
      LineTail(p);
      HeadThen(p, "\n", s);
      LinePiecesAfterLine(p[1..], s);
      LinePiecesChar(p[0], p[1..] + "\n" + s);
      assert [p[0]] + p[1..] == p;
    }
  }

  lemma HeadThen(p: string, x: string, y: string)
    requires p != []
    ensures p + x + y == [p[0]] + (p[1..] + x + y)
  {
    assert p == [p[0]] + p[1..];
  }

  /** A line break ends the current piece. */
  lemma LinePiecesBreak(c: char, s: string)
    requires IsLineBreak(c)
    ensures LinePieces([c] + s) == [[]] + LinePieces(s)
  {
    assert ([c] + s)[1..] == s;
  }

  /** Any other character starts the current piece. */
  lemma LinePiecesChar(c: char, s: string)
    requires !IsLineBreak(c)
    ensures LinePieces([c] + s) == [[c] + LinePieces(s)[0]] + LinePieces(s)[1..]
  {
    assert ([c] + s)[1..] == s;
  }

  /** A line without line breaks starts with a character that is not one, and
      the rest of it has none either. */
  lemma LineTail(p: string)
    requires p != [] && NoLineBreak(p)
    ensures !IsLineBreak(p[0]) && NoLineBreak(p[1..])
  {
    assert p[0] in p;
    assert forall c | c in p[1..] :: c in p;
  }

  /** Splitting lines joined by newlines gives back the lines (`splitlines` after `'\n'.join`). */
  lemma {:induction false} LinePiecesJoin(parts: seq<string>)
    requires parts != []
    requires forall p | p in parts :: NoLineBreak(p)
    ensures LinePieces(Join("\n", parts)) == parts
    decreases |parts|
  {
    if |parts| == 1 {
      LinePiecesOfLine(parts[0]);
    } else {
      JoinCons("\n", parts[0], parts[1..]);
      assert [parts[0]] + parts[1..] == parts;
      LinePiecesAfterLine(parts[0], Join("\n", parts[1..]));
      LinePiecesJoin(parts[1..]);
    }
  }

  /** Stripping keeps only characters of the string. */
  lemma StripChars(s: string, c: char)
    requires c in Strip(s)
    ensures c in s
  {
    StripIsSlice(s);
    var a := |s| - |StripStart(s)|;
    var i :| 0 <= i < |Strip(s)| && Strip(s)[i] == c;
    assert s[a + i] == c;
  }

  /** Stripping cannot create an occurrence of `t`. */
  lemma StripKeepsAbsent(s: string, t: string)
    requires !Contains(s, t)
    ensures !Contains(Strip(s), t)
  {
    StripIsSlice(s);
    var a := |s| - |StripStart(s)|;
    ContainsSlice(s, t, a, a + |Strip(s)|);
  }

  /** The decimal digit for `d`. */
  function DigitChar(d: nat): (c: char)
    requires d < 10
    ensures '0' <= c <= '9' && c as int - '0' as int == d
  {
    ('0' as int + d) as char
  }

  predicate AllDigits(s: string) {
    forall i :: 0 <= i < |s| ==> IsDigit(s[i])
  }

  /** Python's `str(n)` for a natural number. */
  function NatToString(n: nat): (r: string)
    ensures r != []
    ensures AllDigits(r)
    decreases n
  {
    if n < 10 then [DigitChar(n)] else NatToString(n / 10) + [DigitChar(n % 10)]
  }

  /** Python's `int(s)` on a string of decimal digits. */
  function ParseNat(s: string): nat
    requires AllDigits(s)
    decreases |s|
  {
    if s == [] then 0
    else
      ParseNat(s[..|s| - 1]) * 10 + (s[|s| - 1] as int - '0' as int)
  }

  /** Reading back the rendering of a number gives the number: an index shown as
      "n." identifies its item. */
  lemma {:induction false} ParseNatToString(n: nat)
    ensures ParseNat(NatToString(n)) == n
    decreases n
  {
    if n >= 10 {
      var s := NatToString(n);
      ParseNatToString(n / 10);
      assert s[..|s| - 1] == NatToString(n / 10);
    }
  }

  predicate IsDigit(c: char) {
    '0' <= c <= '9'
  }

  /** The number of decimal digits at the start of `s`. */
  function DigitRun(s: string): (n: nat)
    ensures n <= |s| && AllDigits(s[..n])
    ensures n < |s| ==> !IsDigit(s[n])
    decreases |s|
  {
    if s == [] || !IsDigit(s[0]) then 0
    else
      var n := 1 + DigitRun(s[1..]);
      assert forall i :: 0 < i < n ==> s[..n][i] == s[1..][..n - 1][i - 1];
      n
  }

  /** Digits followed by a non-digit: the run of digits is exactly the digits. */
  lemma {:induction false} DigitRunOf(digits: string, rest: string)
    requires AllDigits(digits)
    requires rest != [] && !IsDigit(rest[0])
    ensures DigitRun(digits + rest) == |digits|
    decreases |digits|
  {
    if digits != [] {
      var s := digits + rest;
      assert s[0] == digits[0] && IsDigit(s[0]);
      assert s[1..] == digits[1..] + rest;
      assert AllDigits(digits[1..]) by {
        forall i | 0 <= i < |digits| - 1 ensures IsDigit(digits[1..][i]) {
          assert digits[1..][i] == digits[i + 1];
        }
      }
      DigitRunOf(digits[1..], rest);
      assert DigitRun(s) == 1 + DigitRun(s[1..]);
    } else {
      assert digits + rest == rest;
    }
  }

  /** An entry of a numbered list: `f"{idx}. {text}"`. */
  function Numbered(idx: nat, text: string): string {
    NatToString(idx) + ". " + text
  }

  /** The number a numbered entry starts with. */
  function NumberOf(s: string): nat {
    ParseNat(s[..DigitRun(s)])
  }

  /** Every numbered entry can be read back as its number. */
  lemma NumberedNumber(idx: nat, text: string)
    ensures NumberOf(Numbered(idx, text)) == idx
  {
    var digits := NatToString(idx);
    var s := Numbered(idx, text);
    assert s == digits + (". " + text);
    DigitRunOf(digits, ". " + text);
    assert s[..|digits|] == digits;
    ParseNatToString(idx);
  }

  /** The entries `1. …`, `2. …`, … for `texts`, in order. */
  function NumberedEntries(texts: seq<string>): (r: seq<string>)
    ensures |r| == |texts|
    ensures forall i :: 0 <= i < |texts| ==> r[i] == Numbered(i + 1, texts[i])
  {
    seq(|texts|, i requires 0 <= i < |texts| => Numbered(i + 1, texts[i]))
  }

  /** A heading line followed by the numbered entries, joined by newlines. */
  function NumberedList(heading: string, texts: seq<string>): string {
    Join("\n", [heading] + NumberedEntries(texts))
  }

  /** A numbered list starts with its heading, and the entry for `texts[i]`
      carries the number `i + 1` and follows the heading and the entries
      before it, each after a newline. */
  lemma NumberedListAt(heading: string, texts: seq<string>, i: nat)
    requires i < |texts|
    ensures var list := NumberedList(heading, texts);
            var entries := NumberedEntries(texts);
            && |heading| <= |list| && list[..|heading|] == heading
            && OccursAt(list, entries[i], |heading| + TotalLength(entries[..i]) + (i + 1))
            && NumberOf(entries[i]) == i + 1
  {
    var entries := NumberedEntries(texts);
    var lines := [heading] + entries;
    JoinStartsWith("\n", heading, entries);
    JoinAt("\n", lines, i + 1);
    assert lines[..i + 1] == [heading] + entries[..i];
    assert TotalLength(lines[..i + 1]) == |heading| + TotalLength(entries[..i]) by {
      assert ([heading] + entries[..i])[1..] == entries[..i];
    }
    NumberedNumber(i + 1, texts[i]);
  }
}

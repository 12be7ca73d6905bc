/**
 * The JavaScript string operations the core relies on (`trim`, `startsWith`,
 * `includes`, `lastIndexOf`, `split`, `join`, `slice`, `toLowerCase` and
 * number-to-string), written over `seq<char>`.
 */
module Strings {

  function Min(a: int, b: int): int { if a <= b then a else b }

  /** ECMAScript white space and line terminators: the regex class `\s`, and what `trim` removes. */
  predicate IsWhitespace(c: char) {
    c == ' ' || c == '\t' || c == '\n' || c == '\U{000B}' || c == '\U{000C}' || c == '\r'
    || c == '\U{00A0}' || c == '\U{1680}' || ('\U{2000}' <= c <= '\U{200A}')
    || c == '\U{2028}' || c == '\U{2029}' || c == '\U{202F}' || c == '\U{205F}'
    || c == '\U{3000}' || c == '\U{FEFF}'
  }

  /** `s.startsWith(p)` */
  predicate StartsWith(s: string, p: string) {
    |p| <= |s| && s[..|p|] == p
  }

  /** `s.includes(p)` */
  predicate Contains(s: string, p: string)
    decreases |s|
  {
    StartsWith(s, p) || (s != [] && Contains(s[1..], p))
  }

  /** `s.slice(0, n)` for n >= 0 */
  function Take<T>(s: seq<T>, n: nat): (r: seq<T>)
    ensures |r| == Min(n, |s|) && r == s[..|r|]
  {
    if n < |s| then s[..n] else s
  }

  /** `s.slice(n)` for n >= 0 */
  function Drop(s: string, n: nat): (r: string)
    ensures n <= |s| ==> r == s[n..]
    ensures n >= |s| ==> r == []
  {
    if n < |s| then s[n..] else []
  }

  /** ASCII-only `toLowerCase`. */
  function ToLowerAscii(s: string): (r: string)
    ensures |r| == |s|
    ensures forall i :: 0 <= i < |s| ==> r[i] == (if 'A' <= s[i] <= 'Z' then (s[i] as int + 32) as char else s[i])
  {
    seq(|s|, i requires 0 <= i < |s| => if 'A' <= s[i] <= 'Z' then (s[i] as int + 32) as char else s[i])
  }

  /** True when no two adjacent characters of `s` are both white space. */
  predicate NoDoubleWhitespace(s: string) {
    forall i :: 0 <= i < |s| - 1 ==> !(IsWhitespace(s[i]) && IsWhitespace(s[i + 1]))
  }

  /** `s.replace(/\s+/g, ' ')`: every run of white space becomes one space. Read from the end. */
  function CollapseWhitespace(s: string): (r: string)
    ensures |r| <= |s|
  {
    if s == [] then []
    else
      var r := CollapseWhitespace(AllButLast(s));
      if !IsWhitespace(Last(s)) then r + [Last(s)]
      else if r != [] && Last(r) == ' ' then r
      else r + [' ']
  }

  /** The characters of `s` that are not white space, in order. */
  function NonWhite(s: string): string {
    if s == [] then [] else NonWhite(AllButLast(s)) + (if IsWhitespace(Last(s)) then [] else [Last(s)])
  }

  /** All of the white space in `s` is plain spaces. */
  predicate PlainSpaces(s: string) {
    forall i :: 0 <= i < |s| && IsWhitespace(s[i]) ==> s[i] == ' '
  }

  /** Collapsing leaves no two white-space characters side by side, and only plain spaces. */
  lemma {:induction false} CollapseWhitespaceNoDouble(s: string)
    ensures NoDoubleWhitespace(CollapseWhitespace(s)) && PlainSpaces(CollapseWhitespace(s))
  {
    if s != [] {
      var r := CollapseWhitespace(AllButLast(s));
      CollapseWhitespaceNoDouble(AllButLast(s));
      var c := Last(s);
      if !IsWhitespace(c) {
        SnocKeepsSpacing(r, c);
      } else if r != [] && Last(r) == ' ' {
      } else {
        SnocKeepsSpacing(r, ' ');
      }
    }
  }

  /** Adding a character keeps the spacing facts unless it doubles white space. */
  lemma SnocKeepsSpacing(r: string, c: char)
    requires NoDoubleWhitespace(r) && PlainSpaces(r)
    requires !IsWhitespace(c) || (c == ' ' && (r == [] || !IsWhitespace(Last(r))))
    ensures NoDoubleWhitespace(r + [c]) && PlainSpaces(r + [c])
  {
    var t := r + [c];
    forall i | 0 <= i < |t| - 1
      ensures !(IsWhitespace(t[i]) && IsWhitespace(t[i + 1]))
    {
      if i + 1 < |r| {
        assert t[i] == r[i] && t[i + 1] == r[i + 1];
      }
    }
  }

  /** Collapsing white space changes nothing but white space. */
  lemma {:induction false} CollapseWhitespaceKeepsText(s: string)
    ensures NonWhite(CollapseWhitespace(s)) == NonWhite(s)
  {
    if s != [] {
      var r := CollapseWhitespace(AllButLast(s));
      CollapseWhitespaceKeepsText(AllButLast(s));
      var c := Last(s);
      if !IsWhitespace(c) {
        NonWhiteSnoc(r, c);
      } else if r != [] && Last(r) == ' ' {
      } else {
        NonWhiteSnoc(r, ' ');
      }
    }
  }

  lemma NonWhiteSnoc(s: string, c: char)
    ensures NonWhite(s + [c]) == NonWhite(s) + (if IsWhitespace(c) then [] else [c])
  {
    assert AllButLast(s + [c]) == s;
  }

  /** A slice of a string without doubled white space has none either. */
  lemma NoDoubleWhitespaceSlice(s: string, a: nat, b: nat)
    requires NoDoubleWhitespace(s) && a <= b <= |s|
    ensures NoDoubleWhitespace(s[a..b])
  {
    var t := s[a..b];
    forall i | 0 <= i < |t| - 1
      ensures !(IsWhitespace(t[i]) && IsWhitespace(t[i + 1]))
    {
      assert t[i] == s[a + i] && t[i + 1] == s[a + i + 1];
    }
  }

  // ---------------------------------------------------------------- trim

  /** `s.trimStart()` */
  function TrimStart(s: string): (r: string)
    ensures |r| <= |s|
  {
    if s != [] && IsWhitespace(s[0]) then TrimStart(s[1..]) else s
  }

  /** `s.trimEnd()` */
  function TrimEnd(s: string): (r: string)
    ensures |r| <= |s|
  {
    if s != [] && IsWhitespace(s[|s| - 1]) then TrimEnd(s[..|s| - 1]) else s
  }

  /** `s.trim()` */
  function Trim(s: string): (r: string)
    ensures |r| <= |s|
  {
    TrimEnd(TrimStart(s))
  }

  /** `trimStart` drops the longest all-white-space prefix. */
  lemma {:induction false} TrimStartDropsPrefix(s: string)
    ensures var r := TrimStart(s);
      && r == s[|s| - |r|..]
      && (r == [] || !IsWhitespace(r[0]))
      && forall i :: 0 <= i < |s| - |r| ==> IsWhitespace(s[i])
  {
    if s != [] && IsWhitespace(s[0]) {
      TrimStartDropsPrefix(s[1..]);
    }
  }

  /** `trimEnd` drops the longest all-white-space suffix. */
  lemma {:induction false} TrimEndDropsSuffix(s: string)
    ensures var r := TrimEnd(s);
      && r == s[..|r|]
      && (r == [] || !IsWhitespace(r[|r| - 1]))
      && forall i :: |r| <= i < |s| ==> IsWhitespace(s[i])
  {
    if s != [] && IsWhitespace(s[|s| - 1]) {
      TrimEndDropsSuffix(s[..|s| - 1]);
    }
  }

  /**
   * `trim` keeps a contiguous slice of its input, with no white space at either end;
   * it is empty exactly when the input is all white space.
   */
  lemma TrimIsSlice(s: string)
    ensures exists a, b :: 0 <= a <= b <= |s| && Trim(s) == s[a..b]
    ensures var r := Trim(s); r == [] || (!IsWhitespace(r[0]) && !IsWhitespace(r[|r| - 1]))
    ensures (forall i :: 0 <= i < |s| ==> IsWhitespace(s[i])) <==> Trim(s) == []
  {
    var t := TrimStart(s);
    var r := TrimEnd(t);
    TrimStartDropsPrefix(s);
    TrimEndDropsSuffix(t);
    var a := |s| - |t|;
    assert r == s[a..a + |r|];
    if r != [] {
      assert r[0] == t[0];
    }
  }

  /** Where `s.slice(lo, hi).trim()` starts in `s`: past the white space at the front of the slice. */
  function TrimLo(s: string, lo: nat, hi: nat): (r: nat)
    requires lo <= hi <= |s|
    ensures lo <= r <= hi
    decreases hi - lo
  {
    if lo < hi && IsWhitespace(s[lo]) then TrimLo(s, lo + 1, hi) else lo
  }

  /** Where `s.slice(lo, hi).trim()` ends in `s`: before the white space at the back of the slice. */
  function TrimHi(s: string, lo: nat, hi: nat): (r: nat)
    requires lo <= hi <= |s|
    ensures lo <= r <= hi
    decreases hi - lo
  {
    if lo < hi && IsWhitespace(s[hi - 1]) then TrimHi(s, lo, hi - 1) else hi
  }

  /** `s.slice(lo, hi).trim()`, computed by position. */
  function TrimSlice(s: string, lo: nat, hi: nat): string
    requires lo <= hi <= |s|
  {
    var a := TrimLo(s, lo, hi);
    s[a..TrimHi(s, a, hi)]
  }

  lemma {:induction false} TrimLoIsTrimStart(s: string, lo: nat, hi: nat)
    requires lo <= hi <= |s|
    ensures TrimStart(s[lo..hi]) == s[TrimLo(s, lo, hi)..hi]
    decreases hi - lo
  {
    if lo < hi && IsWhitespace(s[lo]) {
      assert s[lo..hi][1..] == s[lo + 1..hi];
      TrimLoIsTrimStart(s, lo + 1, hi);
    }
  }

  lemma {:induction false} TrimHiIsTrimEnd(s: string, lo: nat, hi: nat)
    requires lo <= hi <= |s|
    ensures TrimEnd(s[lo..hi]) == s[lo..TrimHi(s, lo, hi)]
    decreases hi - lo
  {
    if lo < hi && IsWhitespace(s[hi - 1]) {
      assert s[lo..hi][..hi - 1 - lo] == s[lo..hi - 1];
      TrimHiIsTrimEnd(s, lo, hi - 1);
    }
  }

  /** Trimming by position agrees with `trim` on the slice. */
  lemma TrimSliceIsTrim(s: string, lo: nat, hi: nat)
    requires lo <= hi <= |s|
    ensures TrimSlice(s, lo, hi) == Trim(s[lo..hi])
  {
    TrimLoIsTrimStart(s, lo, hi);
    var a := TrimLo(s, lo, hi);
    TrimHiIsTrimEnd(s, a, hi);
  }

  // ---------------------------------------------------------- lastIndexOf

  /** `p` occurs in `s` at index `i`. */
  predicate OccursAt(s: string, p: string, i: int) {
    0 <= i && i + |p| <= |s| && forall k :: 0 <= k < |p| ==> s[i + k] == p[k]
  }

  /** The last occurrence of `p` in `s` at an index no greater than `from`, or -1. */
  function LastIndexAtOrBefore(s: string, p: string, from: int): (r: int)
    ensures -1 <= r && (r >= 0 ==> r <= from)
    ensures r >= 0 ==> OccursAt(s, p, r)
    decreases if from < 0 then 0 else from + 1
  {
    if from < 0 then -1
    else if OccursAt(s, p, from) then from
    else LastIndexAtOrBefore(s, p, from - 1)
  }

  /** `s.lastIndexOf(p, from)` for from >= 0. */
  function LastIndexOf(s: string, p: string, from: nat): (r: int)
    ensures -1 <= r <= from
    ensures r >= 0 ==> OccursAt(s, p, r)
  {
    LastIndexAtOrBefore(s, p, Min(from, |s| - |p|))
  }

  lemma {:induction false} LastIndexAtOrBeforeIsLast(s: string, p: string, from: int)
    ensures forall i :: LastIndexAtOrBefore(s, p, from) < i <= from ==> !OccursAt(s, p, i)
    decreases if from < 0 then 0 else from + 1
  {
    if from >= 0 && !OccursAt(s, p, from) {
      LastIndexAtOrBeforeIsLast(s, p, from - 1);
    }
  }

  /** No occurrence of `p` starts after the index `lastIndexOf` returns and at or before `from`. */
  lemma LastIndexOfIsLast(s: string, p: string, from: nat)
    ensures forall i :: LastIndexOf(s, p, from) < i <= from ==> !OccursAt(s, p, i)
  {
    LastIndexAtOrBeforeIsLast(s, p, Min(from, |s| - |p|));
  }

  // ---------------------------------------------------------------- split

  function AllButLast<T>(xs: seq<T>): seq<T>
    requires |xs| >= 1
  {
    xs[..|xs| - 1]
  }

  function Last<T>(xs: seq<T>): T
    requires |xs| >= 1
  {
    xs[|xs| - 1]
  }

  /**
   * `s.split(d)` for a one-character separator `d`, read from the end: a separator
   * closes the last piece and opens an empty one, any other character extends the
   * last piece. Never empty.
   */
  function Split(s: string, d: char): (r: seq<string>)
    ensures |r| >= 1
  {
    if s == [] then [""] else PushChar(Split(AllButLast(s), d), Last(s), d)
  }

  /** One more character read by `Split`: a separator opens an empty piece, anything else extends the last piece. */
  function PushChar(pieces: seq<string>, c: char, d: char): (r: seq<string>)
    requires |pieces| >= 1
    ensures |r| >= 1
  {
    if c == d then pieces + [""] else AllButLast(pieces) + [Last(pieces) + [c]]
  }

  /** The pieces one after another, with nothing between them. */
  function Concat<T>(pieces: seq<seq<T>>): seq<T> {
    if pieces == [] then [] else Concat(AllButLast(pieces)) + Last(pieces)
  }

  /** One more piece adds itself at the end. */
  lemma ConcatSnoc<T>(pieces: seq<seq<T>>, piece: seq<T>)
    ensures Concat(pieces + [piece]) == Concat(pieces) + piece
  {
    assert AllButLast(pieces + [piece]) == pieces;
  }

  /** The same, for the prefixes of a list of pieces. */
  lemma ConcatPrefix<T>(pieces: seq<seq<T>>, k: nat)
    requires k < |pieces|
    ensures Concat(pieces[..k + 1]) == Concat(pieces[..k]) + pieces[k]
  {
    assert AllButLast(pieces[..k + 1]) == pieces[..k];
  }

  /** Number of occurrences of `c` in `s`. */
  function Count(s: string, c: char): nat {
    if s == [] then 0 else Count(AllButLast(s), c) + (if Last(s) == c then 1 else 0)
  }

  /** `parts.join(sep)` */
  function Join(parts: seq<string>, sep: string): (r: string)
    ensures parts == [] ==> r == []
    ensures |parts| == 1 ==> r == parts[0]
  {
    if parts == [] then []
    else if |parts| == 1 then parts[0]
    else Join(AllButLast(parts), sep) + sep + Last(parts)
  }

  /** `s.split(d).length` is one more than the number of separators. */
  lemma {:induction false} SplitLength(s: string, d: char)
    ensures |Split(s, d)| == Count(s, d) + 1
    decreases |s|
  {
    if s != [] {
      SplitLength(AllButLast(s), d);
    }
  }

  /** No piece of `s.split(d)` contains the separator. */
  lemma {:induction false} SplitPiecesAvoidSeparator(s: string, d: char)
    ensures forall k :: 0 <= k < |Split(s, d)| ==> d !in Split(s, d)[k]
    decreases |s|
  {
    if s != [] {
      SplitPiecesAvoidSeparator(AllButLast(s), d);
    }
  }

  /** A string without the separator splits into itself alone. */
  lemma {:induction false} SplitWithoutSeparator(u: string, d: char)
    requires d !in u
    ensures Split(u, d) == [u]
    decreases |u|
  {
    if u != [] {
      assert d !in AllButLast(u) by {
        assert forall k :: 0 <= k < |u| - 1 ==> AllButLast(u)[k] == u[k];
      }
      SplitWithoutSeparator(AllButLast(u), d);
      assert AllButLast(u) + [Last(u)] == u;
    }
  }

  /** Joining the pieces of `s.split(d)` with `d` gives back `s`. */
  lemma {:induction false} JoinSplit(s: string, d: char)
    ensures Join(Split(s, d), [d]) == s
    decreases |s|
  {
    if s != [] {
      var s', c := AllButLast(s), Last(s);
      assert s == s' + [c];
      JoinSplit(s', d);
      if c == d {
        JoinSnoc(Split(s', d), [d], "");
      } else {
        JoinExtendLast(Split(s', d), [d], c);
      }
    }
  }

  /** Joining one more part adds the separator and that part. */
  lemma JoinSnoc(parts: seq<string>, sep: string, x: string)
    requires |parts| >= 1
    ensures Join(parts + [x], sep) == Join(parts, sep) + sep + x
  {
    assert AllButLast(parts + [x]) == parts;
  }

  /** Extending the last part extends the joined text. */
  lemma JoinExtendLast(parts: seq<string>, sep: string, c: char)
    requires |parts| >= 1
    ensures Join(AllButLast(parts) + [Last(parts) + [c]], sep) == Join(parts, sep) + [c]
  {
    var last := Last(parts) + [c];
    if |parts| > 1 {
      assert AllButLast(AllButLast(parts) + [last]) == AllButLast(parts);
      assert Join(AllButLast(parts), sep) + sep + last == (Join(AllButLast(parts), sep) + sep + Last(parts)) + [c];
    }
  }

  /** One more character after `u`: a separator opens an empty piece, anything else extends the last piece. */
  lemma SplitSnoc(u: string, c: char, d: char)
    ensures Split(u + [c], d) == PushChar(Split(u, d), c, d)
  {
    assert AllButLast(u + [c]) == u;
  }

  /**
   * Splitting `s + t` is splitting `s`, then re-splitting its unterminated last piece
   * with `t` appended: what a reader that keeps the last piece of each read as a
   * buffer relies on.
   */
  lemma {:induction false} SplitAppend(s: string, t: string, d: char)
    ensures Split(s + t, d) == AllButLast(Split(s, d)) + Split(Last(Split(s, d)) + t, d)
    decreases |t|
  {
    if t == [] {
      SplitAppendNothing(s, d);
      assert s + t == s && Last(Split(s, d)) + t == Last(Split(s, d));
    } else {
      var last := Last(Split(s, d));
      SplitAppend(s, AllButLast(t), d);
      SplitAppendStep(AllButLast(Split(s, d)), s + AllButLast(t), last + AllButLast(t), Last(t), d);
      AppendSnoc(s, t);
      AppendSnoc(last, t);
    }
  }

  /** The base case of `SplitAppend`. */
  lemma SplitAppendNothing(s: string, d: char)
    ensures Split(s, d) == AllButLast(Split(s, d)) + Split(Last(Split(s, d)), d)
  {
    var pieces := Split(s, d);
    SplitPiecesAvoidSeparator(s, d);
    SplitWithoutSeparator(Last(pieces), d);
    assert pieces == AllButLast(pieces) + [Last(pieces)];
  }

  /** Appending `t` is appending all of `t` but its last character, then that character. */
  lemma AppendSnoc<T>(s: seq<T>, t: seq<T>)
    requires |t| >= 1
    ensures s + t == (s + AllButLast(t)) + [Last(t)]
  {
  }

  /** Concatenation is associative. */
  lemma ConcatAssoc<T>(a: seq<T>, b: seq<T>, c: seq<T>)
    ensures (a + b) + c == a + (b + c)
  {
  }

  /** The last element of a concatenation and what precedes it. */
  lemma ConcatEnds<T>(s: seq<T>, t: seq<T>)
    requires |t| >= 1
    ensures AllButLast(s + t) == s + AllButLast(t) && Last(s + t) == Last(t)
  {
    assert AllButLast(s + t) == s + AllButLast(t);
  }

  /** The inductive step of `SplitAppend`: one more character `c` on both sides. */
  lemma SplitAppendStep(front: seq<string>, u: string, v: string, c: char, d: char)
    requires Split(u, d) == front + Split(v, d)
    ensures Split(u + [c], d) == front + Split(v + [c], d)
  {
    SplitSnoc(u, c, d);
    SplitSnoc(v, c, d);
    SnocPieces(front, Split(v, d), c, d);
  }

  /** Adding a character to the last of `a + q` pieces only touches `q`'s part. */
  lemma SnocPieces(a: seq<string>, q: seq<string>, c: char, d: char)
    requires |q| >= 1
    ensures PushChar(a + q, c, d) == a + PushChar(q, c, d)
  {
    var r := a + q;
    if c != d {
      assert AllButLast(r) == a + AllButLast(q);
    }
  }

  // ---------------------------------------------------------- numerals

  /** The decimal digit for `d`. */
  function DigitChar(d: nat): (c: char)
    requires d < 10
    ensures '0' <= c <= '9' && c as int - '0' as int == d
  {
    ('0' as int + d) as char
  }

  /** Decimal rendering of a natural number, as JavaScript's `String(n)`. */
  function NatToString(n: nat): (r: string)
    ensures |r| >= 1
    ensures forall i :: 0 <= i < |r| ==> '0' <= r[i] <= '9'
  {
    if n < 10 then [DigitChar(n)] else NatToString(n / 10) + [DigitChar(n % 10)]
  }

  /** Decimal rendering of an integer, with a leading '-' when negative. */
  function IntToString(n: int): string {
    if n < 0 then "-" + NatToString(-n) else NatToString(n)
  }

  /** Reads a string of decimal digits back as a number. */
  function ParseNat(s: string): nat
    requires forall i :: 0 <= i < |s| ==> '0' <= s[i] <= '9'
  {
    if s == [] then 0 else 10 * ParseNat(s[..|s| - 1]) + (s[|s| - 1] as int - '0' as int)
  }

  lemma {:induction false} ParseNatToString(n: nat)
    ensures ParseNat(NatToString(n)) == n
  {
    if n >= 10 {
      var prefix := NatToString(n / 10);
      var r := prefix + [DigitChar(n % 10)];
      assert r[..|r| - 1] == prefix;
      ParseNatToString(n / 10);
    }
  }
}

/**
 * The handful of .NET string operations the editor tools rely on, stated over
 * `seq<char>` with ordinal comparison by Unicode code point.
 */
module Strings {

  /** `s.StartsWith(p)`, ordinal. */
  predicate StartsWith(s: string, p: string) {
    |p| <= |s| && s[..|p|] == p
  }

  /** `s.Contains(sub)`, ordinal: `sub` occurs at some offset of `s`. */
  predicate Contains(s: string, sub: string)
    decreases |s|
  {
    StartsWith(s, sub) || (|s| > 0 && Contains(s[1..], sub))
  }

  /**
   * `s.StartsWith(p) ? s.Substring(p.Length) : s`, the prefix stripping the
   * clip tools apply to clip names.
   */
  function StripPrefix(s: string, p: string): (r: string)
    ensures StartsWith(s, p) ==> p + r == s
    ensures !StartsWith(s, p) ==> r == s
  {
    if StartsWith(s, p) then s[|p|..] else s
  }

  /** The characters for which .NET's `char.IsWhiteSpace` holds. */
  predicate IsWhiteSpace(c: char) {
    ('\U{9}' <= c <= '\U{D}') || c == ' ' || c == '\U{85}' || c == '\U{A0}'
    || c == '\U{1680}' || ('\U{2000}' <= c <= '\U{200A}') || c == '\U{2028}'
    || c == '\U{2029}' || c == '\U{202F}' || c == '\U{205F}' || c == '\U{3000}'
  }

  /** `s.TrimStart()`: the longest suffix of `s` that does not start with white space. */
  function TrimStart(s: string): (r: string)
    ensures |r| <= |s| && r == s[|s| - |r|..]
    ensures forall i :: 0 <= i < |s| - |r| ==> IsWhiteSpace(s[i])
    ensures r == [] || !IsWhiteSpace(r[0])
  {
    if |s| > 0 && IsWhiteSpace(s[0]) then TrimStart(s[1..]) else s
  }

  /** `s.TrimEnd()`: the longest prefix of `s` that does not end with white space. */
  function TrimEnd(s: string): (r: string)
    ensures |r| <= |s| && r == s[..|r|]
    ensures forall i :: |r| <= i < |s| ==> IsWhiteSpace(s[i])
    ensures r == [] || !IsWhiteSpace(r[|r| - 1])
  {
    if |s| > 0 && IsWhiteSpace(s[|s| - 1]) then TrimEnd(s[..|s| - 1]) else s
  }

  /** `s.Trim()`: what is left once white space is cut from both ends. */
  function Trim(s: string): (r: string)
    ensures r == [] || (!IsWhiteSpace(r[0]) && !IsWhiteSpace(r[|r| - 1]))
    ensures forall c :: c in r ==> c in s
    ensures r == [] ==> forall i :: 0 <= i < |s| ==> IsWhiteSpace(s[i])
  {
    var front := TrimStart(s);
    var r := TrimEnd(front);
    assert forall c :: c in r ==> c in front;
    r
  }

  /** What `Trim` returns is a slice of `s` with only white space outside it. */
  lemma TrimIsSlice(s: string)
    ensures exists a, b :: 0 <= a <= b <= |s| && Trim(s) == s[a..b] && WhiteOutside(s, a, b)
  {
    var front := TrimStart(s);
    var r := TrimEnd(front);
    var a := |s| - |front|;
    assert r == s[a..a + |r|];
    assert WhiteOutside(s, a, a + |r|) by {
      forall i | a + |r| <= i < |s| ensures IsWhiteSpace(s[i]) {
        assert s[i] == front[i - a];
      }
    }
  }

  /** Everything of `s` before index `a` and from index `b` on is white space. */
  predicate WhiteOutside(s: string, a: int, b: int)
    requires 0 <= a <= b <= |s|
  {
    (forall i :: 0 <= i < a ==> IsWhiteSpace(s[i])) && (forall i :: b <= i < |s| ==> IsWhiteSpace(s[i]))
  }

  /** Any slice with white space outside it and none at its two ends is what `Trim` returns. */
  lemma TrimCharacterised(s: string, a: int, b: int)
    requires 0 <= a <= b <= |s| && WhiteOutside(s, a, b)
    requires a < b ==> !IsWhiteSpace(s[a]) && !IsWhiteSpace(s[b - 1])
    ensures Trim(s) == s[a..b]
  {
    var r := Trim(s);
    TrimIsSlice(s);
    var a', b' :| 0 <= a' <= b' <= |s| && r == s[a'..b'] && WhiteOutside(s, a', b');
    if r != [] {
      assert !IsWhiteSpace(s[a']) && !IsWhiteSpace(s[b' - 1]) by {
        assert r[0] == s[a'] && r[|r| - 1] == s[b' - 1];
      }
      assert a <= a' && b' <= b;
      assert a' <= a && b <= b';
    }
  }

  /** Trimming a string that neither starts nor ends with white space gives it back. */
  lemma TrimFixed(s: string)
    requires s != [] && !IsWhiteSpace(s[0]) && !IsWhiteSpace(s[|s| - 1])
    ensures Trim(s) == s
  {
    assert TrimStart(s) == s;
  }

  /** Every occurrence of `from` in `s` replaced by `to` (`s.Replace(from, to)` on one-character strings). */
  function ReplaceChar(s: string, from: char, to: char): (r: string)
    ensures |r| == |s|
    ensures forall i :: 0 <= i < |s| ==> r[i] == (if s[i] == from then to else s[i])
  {
    if s == [] then [] else ReplaceChar(s[..|s| - 1], from, to) + [if s[|s| - 1] == from then to else s[|s| - 1]]
  }

  /** The index of the last character of `s` drawn from `chars`, or -1 (`s.LastIndexOfAny(chars)`). */
  function LastIndexOfAny(s: string, chars: set<char>): (k: int)
    ensures -1 <= k < |s|
    ensures k >= 0 ==> s[k] in chars
    ensures forall i :: k < i < |s| ==> s[i] !in chars
  {
    if s == [] then -1
    else if s[|s| - 1] in chars then |s| - 1
    else LastIndexOfAny(s[..|s| - 1], chars)
  }

  /** `s.Split(sep)`: the pieces between occurrences of `sep`, empty pieces included. */
  function Split(s: string, sep: char): (parts: seq<string>)
    ensures |parts| >= 1
    ensures forall i :: 0 <= i < |parts| ==> sep !in parts[i]
  {
    if s == [] then [[]]
    else
      var rest := Split(s[1..], sep);
      if s[0] == sep then [[]] + rest else [[s[0]] + rest[0]] + rest[1..]
  }

  /** The pieces joined with `sep` between them (`string.Join(sep, parts)`). */
  function Join(parts: seq<string>, sep: char): string
    requires |parts| >= 1
  {
    if |parts| == 1 then parts[0] else parts[0] + [sep] + Join(parts[1..], sep)
  }

  lemma {:induction false} JoinSplit(s: string, sep: char)
    ensures Join(Split(s, sep), sep) == s
  {
    if s != [] {
      var rest := Split(s[1..], sep);
      JoinSplit(s[1..], sep);
      if s[0] != sep {
        var parts := Split(s, sep);
        if |rest| == 1 {
          assert parts == [[s[0]] + rest[0]];
        } else {
          assert parts[1..] == rest[1..];
          assert Join(rest, sep) == rest[0] + [sep] + Join(rest[1..], sep);
        }
      } else {
        assert Split(s, sep)[1..] == rest;
      }
    }
  }

  /** Joining one more piece appends the separator and the piece. */
  lemma {:induction false} JoinAppend(parts: seq<string>, piece: string, sep: char)
    requires |parts| >= 1
    ensures Join(parts + [piece], sep) == Join(parts, sep) + [sep] + piece
    decreases |parts|
  {
    if |parts| > 1 {
      assert (parts + [piece])[1..] == parts[1..] + [piece];
      JoinAppend(parts[1..], piece, sep);
    }
  }

  /** A string that does not start with the separator has a non-empty first piece. */
  lemma SplitFirstPiece(s: string, sep: char)
    requires s != [] && s[0] != sep
    ensures Split(s, sep)[0] != []
  {
  }

  /** `s.Split(sep, StringSplitOptions.RemoveEmptyEntries)`: the pieces of `Split`, empty ones dropped. */
  function SplitRemoveEmpty(s: string, sep: char): (parts: seq<string>)
    ensures parts == NonEmpty(Split(s, sep))
    ensures forall i :: 0 <= i < |parts| ==> parts[i] != [] && sep !in parts[i]
  {
    NonEmpty(Split(s, sep))
  }

  /** The non-empty pieces, in their order. */
  function NonEmpty(pieces: seq<string>): (r: seq<string>)
    ensures |r| <= |pieces|
    ensures forall i :: 0 <= i < |r| ==> r[i] != [] && r[i] in pieces
    ensures forall p :: p in pieces && p != [] ==> p in r
  {
    if pieces == [] then []
    else if pieces[0] == [] then NonEmpty(pieces[1..])
    else [pieces[0]] + NonEmpty(pieces[1..])
  }

  /** Dropping empty pieces works piece by piece and keeps the order: it distributes over `+`. */
  lemma {:induction false} NonEmptyAppend(a: seq<string>, b: seq<string>)
    ensures NonEmpty(a + b) == NonEmpty(a) + NonEmpty(b)
    decreases |a|
  {
    if a == [] {
      assert a + b == b;
    } else {
      assert (a + b)[0] == a[0] && (a + b)[1..] == a[1..] + b;
      NonEmptyAppend(a[1..], b);
    }
  }

  /** A string with no separator at either end and no two separators in a row splits into non-empty pieces. */
  lemma {:induction false} SplitPiecesNonEmpty(s: string, sep: char)
    requires s != [] && s[0] != sep && s[|s| - 1] != sep
    requires forall i :: 0 <= i < |s| - 1 ==> !(s[i] == sep && s[i + 1] == sep)
    ensures forall i :: 0 <= i < |Split(s, sep)| ==> Split(s, sep)[i] != []
    decreases |s|
  {
    var t := s[1..];
    if t != [] {
      if t[0] != sep {
        SplitPiecesNonEmpty(t, sep);
      } else {
        assert |t| >= 2 && t[1] == s[2];
        SplitPiecesNonEmpty(t[1..], sep);
        var rest := Split(t, sep);
        assert rest == [[]] + Split(t[1..], sep);
        assert rest[0] == [] && rest[1..] == Split(t[1..], sep);
        assert [s[0]] + rest[0] == [s[0]];
        assert Split(s, sep) == [[s[0]]] + Split(t[1..], sep);
      }
    }
  }

  /** For such a string, dropping empty pieces drops nothing and joining the pieces gives it back. */
  lemma SplitRemoveEmptyJoin(s: string, sep: char)
    requires s != [] && s[0] != sep && s[|s| - 1] != sep
    requires forall i :: 0 <= i < |s| - 1 ==> !(s[i] == sep && s[i + 1] == sep)
    ensures SplitRemoveEmpty(s, sep) == Split(s, sep)
    ensures Join(SplitRemoveEmpty(s, sep), sep) == s
  {
    SplitPiecesNonEmpty(s, sep);
    NonEmptyKeepsAll(Split(s, sep));
    JoinSplit(s, sep);
  }

  lemma {:induction false} NonEmptyKeepsAll(pieces: seq<string>)
    requires forall i :: 0 <= i < |pieces| ==> pieces[i] != []
    ensures NonEmpty(pieces) == pieces
  {
    if pieces != [] {
      NonEmptyKeepsAll(pieces[1..]);
    }
  }

  predicate IsDigit(c: char) {
    '0' <= c <= '9'
  }

  function DigitChar(d: nat): (c: char)
    requires d < 10
    ensures IsDigit(c)
  {
    (d + '0' as int) as char
  }

  /** The decimal form of a natural number, without leading zeros (`n.ToString()`). */
  function NatToString(n: nat): (s: string)
    ensures |s| >= 1 && forall i :: 0 <= i < |s| ==> IsDigit(s[i])
    ensures n >= 10 <==> |s| >= 2
  {
    if n < 10 then [DigitChar(n)] else NatToString(n / 10) + [DigitChar(n % 10)]
  }

  /** The decimal form of an integer, with a leading `-` when negative (`i.ToString()`). */
  function IntToString(i: int): (s: string)
    ensures |s| >= 1
  {
    if i < 0 then "-" + NatToString(-i) else NatToString(i)
  }

  /** `n.ToString("D" + width)`: the decimal form left-padded with zeros to at least `width` digits. */
  function PadDecimal(n: nat, width: nat): (s: string)
    ensures |s| == if |NatToString(n)| < width then width else |NatToString(n)|
    ensures forall i :: 0 <= i < |s| ==> IsDigit(s[i])
  {
    var digits := NatToString(n);
    if |digits| < width then seq(width - |digits|, _ => '0') + digits else digits
  }

  lemma {:induction false} NatToStringInjective(a: nat, b: nat)
    requires NatToString(a) == NatToString(b)
    ensures a == b
  {
    if a >= 10 && b >= 10 {
      var sa, sb := NatToString(a), NatToString(b);
      assert sa[..|sa| - 1] == NatToString(a / 10);
      assert sb[..|sb| - 1] == NatToString(b / 10);
      NatToStringInjective(a / 10, b / 10);
      assert sa[|sa| - 1] == DigitChar(a % 10);
      assert sb[|sb| - 1] == DigitChar(b % 10);
    }
  }

  /** The decimal form of an integer starts with '-' exactly when it is negative. */
  lemma IntToStringSign(i: int)
    ensures (IntToString(i)[0] == '-') == (i < 0)
  {
    if i >= 0 {
      assert IsDigit(NatToString(i)[0]);
    }
  }

  lemma IntToStringInjective(a: int, b: int)
    requires IntToString(a) == IntToString(b)
    ensures a == b
  {
    IntToStringSign(a);
    IntToStringSign(b);
    if a < 0 {
      assert NatToString(-a) == IntToString(a)[1..];
      assert NatToString(-b) == IntToString(b)[1..];
      NatToStringInjective(-a, -b);
    } else {
      NatToStringInjective(a, b);
    }
  }

  /** Two strings framed by the same prefix and suffix are equal when the framed strings are. */
  lemma Unframe(p: string, x: string, y: string, q: string)
    requires p + x + q == p + y + q
    ensures x == y
  {
    assert |x| == |y|;
    assert x == (p + x + q)[|p|..|p| + |x|];
    assert y == (p + y + q)[|p|..|p| + |y|];
  }

  /**
   * Ordinal string order: `a` sorts strictly before `b` when it is a proper prefix of
   * `b` or has a smaller character at the first position where they differ.
   */
  predicate OrdinalLess(a: string, b: string)
    decreases |a|
  {
    b != [] && (a == [] || a[0] < b[0] || (a[0] == b[0] && OrdinalLess(a[1..], b[1..])))
  }

  lemma {:induction false} OrdinalLessIrreflexive(a: string)
    ensures !OrdinalLess(a, a)
    decreases |a|
  {
    if a != [] {
      OrdinalLessIrreflexive(a[1..]);
    }
  }

  lemma {:induction false} OrdinalLessTransitive(a: string, b: string, c: string)
    requires OrdinalLess(a, b) && OrdinalLess(b, c)
    ensures OrdinalLess(a, c)
    decreases |a|
  {
    if a != [] && a[0] == b[0] && b[0] == c[0] {
      OrdinalLessTransitive(a[1..], b[1..], c[1..]);
    }
  }

  /** Any two different strings are ordered one way or the other. */
  lemma {:induction false} OrdinalLessTotal(a: string, b: string)
    requires a != b
    ensures OrdinalLess(a, b) || OrdinalLess(b, a)
    decreases |a|
  {
    if a != [] && b != [] && a[0] == b[0] {
      assert a == [a[0]] + a[1..] && b == [b[0]] + b[1..];
      OrdinalLessTotal(a[1..], b[1..]);
    }
  }

  /** A string sorts before every longer string it begins. */
  lemma {:induction false} OrdinalLessPrefix(x: string, y: string)
    requires y != []
    ensures OrdinalLess(x, x + y)
    decreases |x|
  {
    if x != [] {
      assert (x + y)[1..] == x[1..] + y;
      OrdinalLessPrefix(x[1..], y);
    }
  }

  /** A common beginning does not change the order. */
  lemma {:induction false} OrdinalLessCommon(c: string, x: string, y: string)
    requires OrdinalLess(x, y)
    ensures OrdinalLess(c + x, c + y)
    decreases |c|
  {
    if c != [] {
      assert (c + x)[1..] == c[1..] + x && (c + y)[1..] == c[1..] + y;
      assert (c + x)[0] == c[0] == (c + y)[0];
      OrdinalLessCommon(c[1..], x, y);
    } else {
      assert c + x == x && c + y == y;
    }
  }

  /** Between strings of one length, the order is decided inside them, whatever follows. */
  lemma {:induction false} OrdinalLessExtend(a: string, b: string, x: string, y: string)
    requires OrdinalLess(a, b) && |a| == |b|
    ensures OrdinalLess(a + x, b + y)
    decreases |a|
  {
    if a[0] == b[0] {
      assert (a + x)[1..] == a[1..] + x && (b + y)[1..] == b[1..] + y;
      OrdinalLessExtend(a[1..], b[1..], x, y);
    }
  }
}

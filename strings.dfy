/** The Python `str` operations the bot relies on, over Dafny strings:
    `find`, `in`, `split(sep)[-1]`, `s[::-1]`, `s[:stop]`, `str(n)`, `int(s)`
    and the code-point order that `sorted` uses. */
module PyStrings {

  datatype Option<T> = None | Some(value: T)

  /** `t` occurs in `s` starting at index `j`. */
  predicate MatchAt(s: string, t: string, j: nat) {
    j + |t| <= |s| && s[j..j + |t|] == t
  }

  lemma {:induction false} MatchAtTail(s: string, t: string, j: nat)
    requires |s| > 0
    ensures MatchAt(s[1..], t, j) <==> MatchAt(s, t, j + 1)
  {
    if j + |t| <= |s[1..]| {
      assert s[1..][j..j + |t|] == s[j + 1..j + 1 + |t|];
    }
  }

  /** Python `s.find(t)`: the first index where `t` occurs in `s`, or -1. */
  function Find(s: string, t: string): (k: int)
    ensures k == -1 || (0 <= k && MatchAt(s, t, k))
    decreases |s|
  {
    if |s| < |t| then -1
    else if s[..|t|] == t then 0
    else
      var k := Find(s[1..], t);
      assert k >= 0 ==> MatchAt(s, t, k + 1) by {
        if k >= 0 {
          MatchAtTail(s, t, k);
        }
      }
      if k < 0 then -1 else k + 1
  }

  /** No occurrence of `t` comes before the one `Find` reports, and there is
      none at all when it reports -1. */
  lemma {:induction false} FindFirst(s: string, t: string)
    ensures var k := Find(s, t);
      forall j: nat :: (k == -1 || j < k) ==> !MatchAt(s, t, j)
    decreases |s|
  {
    if |s| >= |t| && s[..|t|] != t {
      FindFirst(s[1..], t);
      var k := Find(s[1..], t);
      forall j: nat | k == -1 || j < k + 1 ensures !MatchAt(s, t, j) {
        if j > 0 {
          MatchAtTail(s, t, j - 1);
        }
      }
    }
  }

  /** Python `t in s` for strings. */
  predicate Contains(s: string, t: string) {
    Find(s, t) >= 0
  }

  /** A one-character needle is found exactly when the character occurs. */
  lemma FindChar(s: string, c: char)
    ensures Find(s, [c]) >= 0 <==> c in s
  {
    FindCharFirst(s, c);
  }

  /** A one-character needle is found at the first place the character
      stands, and not at all when it does not occur. */
  lemma FindCharFirst(s: string, c: char)
    ensures var k := Find(s, [c]);
      && (k >= 0 <==> c in s)
      && (k >= 0 ==> k < |s| && s[k] == c && forall j :: 0 <= j < k ==> s[j] != c)
  {
    var k := Find(s, [c]);
    FindFirst(s, [c]);
    if k >= 0 {
      MatchOneChar(s, c, k);
      forall j | 0 <= j < k ensures s[j] != c {
        MatchOneChar(s, c, j);
      }
    }
    if c in s {
      var j :| 0 <= j < |s| && s[j] == c;
      MatchOneChar(s, c, j);
    }
  }

  /** A one-character needle matches where that character stands. */
  lemma MatchOneChar(s: string, c: char, j: nat)
    ensures MatchAt(s, [c], j) <==> j < |s| && s[j] == c
  {
    if j < |s| {
      assert s[j..j + 1] == [s[j]];
    }
  }

  /** Python `s.split(sep)` for a non-empty separator: the pieces between the
      non-overlapping occurrences of `sep`, scanned from the left. */
  function Split(s: string, sep: string): (parts: seq<string>)
    requires |sep| > 0
    ensures |parts| >= 1
    decreases |s|
  {
    var k := Find(s, sep);
    if k < 0 then [s] else [s[..k]] + Split(s[k + |sep|..], sep)
  }

  /** Python `s.split(sep)[-1]`: what follows the last of the occurrences
      `split` cuts at, found by skipping past the first one again and again. */
  function LastPiece(s: string, sep: string): string
    requires |sep| > 0
    decreases |s|
  {
    var k := Find(s, sep);
    if k < 0 then s else LastPiece(s[k + |sep|..], sep)
  }

  /** `LastPiece` is the last element of `Split`. */
  lemma {:induction false} LastPieceOfSplit(s: string, sep: string)
    requires |sep| > 0
    ensures var parts := Split(s, sep); LastPiece(s, sep) == parts[|parts| - 1]
    decreases |s|
  {
    var k := Find(s, sep);
    if k >= 0 {
      var tail := s[k + |sep|..];
      LastPieceOfSplit(tail, sep);
      var rest := Split(tail, sep);
      assert Split(s, sep) == [s[..k]] + rest;
    }
  }

  /** `last` is a suffix of `s` that holds no `sep`; it is all of `s` when
      `sep` does not occur, and otherwise an occurrence of `sep` ends right
      where it begins. */
  predicate IsLastPiece(last: string, s: string, sep: string) {
    && |last| <= |s| && last == s[|s| - |last|..]
    && Find(last, sep) == -1
    && (Find(s, sep) == -1 ==> last == s)
    && (Find(s, sep) != -1 ==> |last| + |sep| <= |s| && MatchAt(s, sep, |s| - |last| - |sep|))
  }

  /** The last piece of a split is the suffix `IsLastPiece` describes. */
  lemma {:induction false} LastPieceIsSuffix(s: string, sep: string)
    requires |sep| > 0
    ensures IsLastPiece(LastPiece(s, sep), s, sep)
    decreases |s|
  {
    var k := Find(s, sep);
    if k >= 0 {
      var tail := s[k + |sep|..];
      LastPieceIsSuffix(tail, sep);
      assert LastPiece(s, sep) == LastPiece(tail, sep);
      ExtendLastPiece(s, sep, k, LastPiece(tail, sep));
    } else {
      assert LastPiece(s, sep) == s == s[0..];
    }
  }

  /** The last piece of what follows an occurrence of `sep` at `k` is a last
      piece of the whole string too. */
  lemma ExtendLastPiece(s: string, sep: string, k: nat, last: string)
    requires |sep| > 0 && MatchAt(s, sep, k) && Find(s, sep) >= 0
    requires IsLastPiece(last, s[k + |sep|..], sep)
    ensures IsLastPiece(last, s, sep)
  {
    var i := k + |sep|;
    SuffixOfSuffix(s, i, |last|);
    assert |last| <= |s| && last == s[|s| - |last|..];
    MatchBeforeLast(s, sep, k, last);
  }

  /** The occurrence of `sep` that precedes the last piece of `s[k + |sep|..]`
      is in `s` too: either the one at `k`, or a later one. */
  lemma MatchBeforeLast(s: string, sep: string, k: nat, last: string)
    requires |sep| > 0 && MatchAt(s, sep, k)
    requires IsLastPiece(last, s[k + |sep|..], sep)
    ensures |last| + |sep| <= |s| && MatchAt(s, sep, |s| - |last| - |sep|)
  {
    var i := k + |sep|;
    var tail := s[i..];
    if Find(tail, sep) != -1 {
      MatchInSuffix(s, i, sep, |tail| - |last| - |sep|, |s| - |last| - |sep|);
    } else {
      assert last == tail;
    }
  }

  /** A suffix of `s[i..]` is a suffix of `s`. */
  lemma SuffixOfSuffix(s: string, i: nat, n: nat)
    requires i <= |s| && n <= |s| - i
    ensures s[i..][|s| - i - n..] == s[|s| - n..]
  {
  }

  /** A match inside `s[i..]` is a match in `s`, shifted by `i`. */
  lemma MatchInSuffix(s: string, i: nat, t: string, j: nat, m: int)
    requires i <= |s| && MatchAt(s[i..], t, j) && m == i + j
    ensures m >= 0 && MatchAt(s, t, m)
  {
    assert s[i..][j..j + |t|] == s[i + j..i + j + |t|];
  }

  /** Python `s[::-1]`. */
  function Reverse(s: string): (r: string)
    ensures |r| == |s|
    ensures forall i :: 0 <= i < |s| ==> r[i] == s[|s| - 1 - i]
  {
    if s == [] then [] else Reverse(s[1..]) + [s[0]]
  }

  /** Python `s[:stop]`: a negative stop counts from the end, and the result is
      clipped to `s`. */
  function SliceTo(s: string, stop: int): (r: string)
    ensures |r| <= |s| && r == s[..|r|]
    ensures 0 <= stop <= |s| ==> |r| == stop
    ensures -|s| <= stop < 0 ==> |r| == |s| + stop
    ensures stop < -|s| ==> r == ""
    ensures stop > |s| ==> r == s
  {
    if stop >= 0 then s[..if stop <= |s| then stop else |s|]
    else if |s| + stop >= 0 then s[..|s| + stop]
    else ""
  }

  predicate IsDigit(c: char) {
    '0' <= c <= '9'
  }

  predicate AllDigits(s: string) {
    forall i :: 0 <= i < |s| ==> IsDigit(s[i])
  }

  function DigitChar(d: nat): (c: char)
    requires d < 10
    ensures IsDigit(c)
  {
    (d + '0' as int) as char
  }

  function DigitValue(c: char): (d: nat)
    requires IsDigit(c)
    ensures d < 10
    ensures DigitChar(d) == c
  {
    (c as int - '0' as int)
  }

  /** Python `str(n)` for a non-negative integer: decimal digits, no leading zero. */
  function NatToString(n: nat): (s: string)
    ensures |s| > 0 && AllDigits(s)
    ensures |s| > 1 ==> s[0] != '0'
  {
    if n < 10 then [DigitChar(n)] else NatToString(n / 10) + [DigitChar(n % 10)]
  }

  /** The value of a string of decimal digits. */
  function DigitsValue(s: string): nat
    requires AllDigits(s)
  {
    if s == [] then 0 else DigitsValue(s[..|s| - 1]) * 10 + DigitValue(s[|s| - 1])
  }

  /** Python `int(s)`: an optional sign followed by at least one decimal
      digit; anything else raises ValueError, modelled as `None`. */
  function ParseInt(s: string): (r: Option<int>)
  {
    if |s| > 0 && (s[0] == '+' || s[0] == '-') then
      var digits := s[1..];
      if |digits| > 0 && AllDigits(digits) then
        Some(if s[0] == '-' then -(DigitsValue(digits) as int) else DigitsValue(digits))
      else None
    else if |s| > 0 && AllDigits(s) then Some(DigitsValue(s))
    else None
  }

  /** `int(str(n)) == n`: the decimal rendering of a non-negative integer
      parses back to that integer. */
  lemma {:induction false} ParseNatToString(n: nat)
    ensures ParseInt(NatToString(n)) == Some(n)
  {
    DigitsOfNatToString(n);
  }

  lemma {:induction false} DigitsOfNatToString(n: nat)
    ensures DigitsValue(NatToString(n)) == n
  {
    var s := NatToString(n);
    if n < 10 {
      assert s[..0] == [];
    } else {
      DigitsOfNatToString(n / 10);
      assert s[..|s| - 1] == NatToString(n / 10);
    }
  }

  /** Python's `<=` on `str`: code-point lexicographic order, where a proper
      prefix comes first. */
  predicate LexLe(a: string, b: string)
    decreases |a|
  {
    |a| == 0 || (|b| > 0 && (a[0] < b[0] || (a[0] == b[0] && LexLe(a[1..], b[1..]))))
  }

  lemma {:induction false} LexLeTotal(a: string, b: string)
    ensures LexLe(a, b) || LexLe(b, a)
    decreases |a|
  {
    if |a| > 0 && |b| > 0 && a[0] == b[0] {
      LexLeTotal(a[1..], b[1..]);
    }
  }

  lemma {:induction false} LexLeTransitive(a: string, b: string, c: string)
    requires LexLe(a, b) && LexLe(b, c)
    ensures LexLe(a, c)
    decreases |a|
  {
    if |a| > 0 && a[0] == b[0] && b[0] == c[0] {
      LexLeTransitive(a[1..], b[1..], c[1..]);
    }
  }

  lemma {:induction false} LexLeAntisymmetric(a: string, b: string)
    requires LexLe(a, b) && LexLe(b, a)
    ensures a == b
    decreases |a|
  {
    if |a| > 0 {
      LexLeAntisymmetric(a[1..], b[1..]);
      assert a == [a[0]] + a[1..] && b == [b[0]] + b[1..];
    }
  }
}

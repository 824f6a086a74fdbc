/** The handful of Python `str` operations the scraper relies on, stated on
    `seq<char>`: `split(sep)`, `split()`, `strip()`, `replace`, substring
    search, `int()` and the shape of a `float()` literal. */
module Strings {
  import opened Wrappers

  /** Python's `str.isspace()` for one character. */
  predicate IsSpace(c: char) {
    || c == ' ' || ('\t' <= c <= '\r') || ('\U{1c}' <= c <= '\U{1f}')
    || c == '\U{85}' || c == '\U{a0}' || c == '\U{1680}'
    || ('\U{2000}' <= c <= '\U{200a}') || c == '\U{2028}' || c == '\U{2029}'
    || c == '\U{202f}' || c == '\U{205f}' || c == '\U{3000}'
  }

  predicate NoSpace(s: string) {
    forall i :: 0 <= i < |s| ==> !IsSpace(s[i])
  }

  // ---------------------------------------------------------------------
  // Substring search (`sub in s`, `s.find(sub)`)

  predicate OccursAt(s: string, sub: string, i: int) {
    0 <= i && i + |sub| <= |s| && s[i..i + |sub|] == sub
  }

  lemma OccursShift(s: string, sub: string, j: int)
    requires |s| >= 1 && 1 <= j
    ensures OccursAt(s, sub, j) == OccursAt(s[1..], sub, j - 1)
  {
    if j + |sub| <= |s| {
      assert s[j..j + |sub|] == s[1..][j - 1..j - 1 + |sub|];
    }
  }

  /** Index of the leftmost occurrence of `sub` in `s`. */
  function IndexOf(s: string, sub: string): (r: Option<nat>)
    ensures r.Some? ==> OccursAt(s, sub, r.value)
    ensures r.Some? ==> forall j :: 0 <= j < r.value ==> !OccursAt(s, sub, j)
    ensures r.None? ==> forall j :: !OccursAt(s, sub, j)
    decreases |s|
  {
    if |s| < |sub| then None
    else if s[..|sub|] == sub then Some(0)
    else
      var rest := IndexOf(s[1..], sub);
      assert forall j :: 1 <= j ==> OccursAt(s, sub, j) == OccursAt(s[1..], sub, j - 1) by {
        forall j | 1 <= j ensures OccursAt(s, sub, j) == OccursAt(s[1..], sub, j - 1) {
          OccursShift(s, sub, j);
        }
      }
      match rest
      case None => None
      case Some(i) => Some(i + 1)
  }

  /** Python's `sub in s`. */
  predicate Contains(s: string, sub: string) {
    IndexOf(s, sub).Some?
  }

  lemma ContainsAt(s: string, sub: string, i: int)
    requires OccursAt(s, sub, i)
    ensures Contains(s, sub)
  {
  }

  /** A text lacking one of the characters of `sub` does not contain `sub`. */
  lemma AbsentChar(s: string, sub: string, c: char)
    requires c in sub && c !in s
    ensures !Contains(s, sub)
  {
  }

  // ---------------------------------------------------------------------
  // `s.split(sep)` for a one-character separator, and its inverse `sep.join`

  /** Python's `s.split(sep)`: the pieces between separators, never fewer than one. */
  function Split(s: string, sep: char): (parts: seq<string>)
    ensures |parts| >= 1
    ensures forall i :: 0 <= i < |parts| ==> sep !in parts[i]
    decreases |s|
  {
    if s == [] then [""]
    else
      var rest := Split(s[1..], sep);
      if s[0] == sep then [""] + rest
      else [[s[0]] + rest[0]] + rest[1..]
  }

  /** Python's `sep.join(parts)`. */
  function Join(parts: seq<string>, sep: char): string
    requires |parts| >= 1
  {
    if |parts| == 1 then parts[0] else parts[0] + [sep] + Join(parts[1..], sep)
  }

  /** Joining the pieces gives back the text. */
  lemma {:induction false} JoinSplit(s: string, sep: char)
    ensures Join(Split(s, sep), sep) == s
    decreases |s|
  {
    if s != [] {
      JoinSplit(s[1..], sep);
      var rest := Split(s[1..], sep);
      if s[0] == sep {
        assert Split(s, sep) == [""] + rest;
        assert ([""] + rest)[1..] == rest;
      } else {
        var parts := Split(s, sep);
        assert parts == [[s[0]] + rest[0]] + rest[1..];
        if |rest| > 1 {
          assert parts[1..] == rest[1..];
          assert Join(rest, sep) == rest[0] + [sep] + Join(rest[1..], sep);
        }
      }
    }
  }

  lemma {:induction false} SplitNoSep(s: string, sep: char)
    requires sep !in s
    ensures Split(s, sep) == [s]
    decreases |s|
  {
    if s != [] {
      SplitNoSep(s[1..], sep);
      assert [s[0]] + s[1..] == s;
    }
  }

  lemma {:induction false} SplitConcat(p: string, sep: char, t: string)
    requires sep !in p
    ensures Split(p + [sep] + t, sep) == [p] + Split(t, sep)
    decreases |p|
  {
    var s := p + [sep] + t;
    if p == [] {
      assert s[1..] == t;
    } else {
      assert s[1..] == p[1..] + [sep] + t;
      SplitConcat(p[1..], sep, t);
      assert [p[0]] + p[1..] == p;
    }
  }

  /** Splitting a join of separator-free pieces gives back the pieces. */
  lemma {:induction false} SplitJoin(parts: seq<string>, sep: char)
    requires |parts| >= 1
    requires forall i :: 0 <= i < |parts| ==> sep !in parts[i]
    ensures Split(Join(parts, sep), sep) == parts
  {
    if |parts| == 1 {
      SplitNoSep(parts[0], sep);
    } else {
      SplitJoin(parts[1..], sep);
      SplitConcat(parts[0], sep, Join(parts[1..], sep));
      assert [parts[0]] + parts[1..] == parts;
    }
  }

  // ---------------------------------------------------------------------
  // `s.split()` (runs of non-whitespace) and `s.strip()`

  /** The longest prefix of `s` without whitespace. */
  function Word(s: string): (w: string)
    ensures |w| <= |s| && w == s[..|w|]
    ensures NoSpace(w)
    ensures |w| == |s| || IsSpace(s[|w|])
  {
    if s == [] || IsSpace(s[0]) then [] else [s[0]] + Word(s[1..])
  }

  /** Python's `s.split()[0]`, with None where that raises IndexError. */
  function FirstWord(s: string): (w: Option<string>)
    ensures w.None? <==> forall i :: 0 <= i < |s| ==> IsSpace(s[i])
    ensures w.Some? ==> w.value != [] && NoSpace(w.value)
  {
    if s == [] then None
    else if IsSpace(s[0]) then
      var w := FirstWord(s[1..]);
      assert forall i :: 1 <= i < |s| ==> s[i] == s[1..][i - 1];
      w
    else Some(Word(s))
  }

  lemma {:induction false} WordOf(w: string, rest: string)
    requires NoSpace(w)
    requires rest == [] || IsSpace(rest[0])
    ensures Word(w + rest) == w
    decreases |w|
  {
    if w != [] {
      assert (w + rest)[1..] == w[1..] + rest;
      WordOf(w[1..], rest);
    }
  }

  /** A word followed by nothing or by whitespace is the first word. */
  lemma {:induction false} FirstWordOf(lead: string, w: string, rest: string)
    requires forall i :: 0 <= i < |lead| ==> IsSpace(lead[i])
    requires w != [] && NoSpace(w)
    requires rest == [] || IsSpace(rest[0])
    ensures FirstWord(lead + w + rest) == Some(w)
    decreases |lead|
  {
    if lead == [] {
      assert lead + w + rest == w + rest;
      WordOf(w, rest);
    } else {
      assert (lead + w + rest)[1..] == lead[1..] + w + rest;
      FirstWordOf(lead[1..], w, rest);
    }
  }

  function TrimStart(s: string): (r: string)
    ensures |r| <= |s| && r == s[|s| - |r|..]
    ensures r == [] || !IsSpace(r[0])
  {
    if s != [] && IsSpace(s[0]) then TrimStart(s[1..]) else s
  }

  function TrimEnd(s: string): (r: string)
    ensures |r| <= |s| && r == s[..|r|]
    ensures r == [] || !IsSpace(r[|r| - 1])
  {
    if s != [] && IsSpace(s[|s| - 1]) then TrimEnd(s[..|s| - 1]) else s
  }

  /** Python's `s.strip()`. */
  function Strip(s: string): (r: string)
    ensures |r| <= |s|
    ensures r == [] || (!IsSpace(r[0]) && !IsSpace(r[|r| - 1]))
  {
    TrimStart(TrimEnd(s))
  }

  /** `strip()` removes white space at both ends and nothing else: the
      result is a slice of the text with only white space around it. */
  lemma StripTrims(s: string)
    ensures exists a, b :: 0 <= a <= b <= |s| && Strip(s) == s[a..b] && AllSpace(s[..a]) && AllSpace(s[b..])
  {
    var e := TrimEnd(s);
    var r := TrimStart(e);
    TrimEndRemoves(s);
    TrimStartRemoves(e);
    var a, b := |e| - |r|, |e|;
    assert r == s[a..b];
    assert s[..a] == e[..a];
  }

  /** Every character of `s` is white space. */
  predicate AllSpace(s: string) {
    forall i :: 0 <= i < |s| ==> IsSpace(s[i])
  }

  /** What `TrimStart` drops is white space. */
  lemma {:induction false} TrimStartRemoves(s: string)
    ensures AllSpace(s[..|s| - |TrimStart(s)|])
    decreases |s|
  {
    if s != [] && IsSpace(s[0]) {
      var rest := s[1..];
      TrimStartRemoves(rest);
      var dropped, restDropped := s[..|s| - |TrimStart(s)|], rest[..|rest| - |TrimStart(rest)|];
      forall i | 0 < i < |dropped|
        ensures IsSpace(dropped[i])
      {
        assert dropped[i] == restDropped[i - 1];
      }
    }
  }

  /** What `TrimEnd` drops is white space. */
  lemma {:induction false} TrimEndRemoves(s: string)
    ensures AllSpace(s[|TrimEnd(s)|..])
    decreases |s|
  {
    if s != [] && IsSpace(s[|s| - 1]) {
      var init := s[..|s| - 1];
      TrimEndRemoves(init);
      assert s[|TrimEnd(s)|..] == init[|TrimEnd(init)|..] + [s[|s| - 1]];
    }
  }

  lemma StripUnpadded(s: string)
    requires s == [] || (!IsSpace(s[0]) && !IsSpace(s[|s| - 1]))
    ensures Strip(s) == s
  {
  }

  // ---------------------------------------------------------------------
  // `replace`

  /** Python's `s.replace(a, b)` for single characters. */
  function ReplaceChar(s: string, a: char, b: char): (r: string)
    ensures |r| == |s|
    ensures forall i :: 0 <= i < |s| ==> r[i] == if s[i] == a then b else s[i]
  {
    seq(|s|, i requires 0 <= i < |s| => if s[i] == a then b else s[i])
  }

  /** Python's `s.replace(c, '')`. */
  function RemoveChar(s: string, c: char): (r: string)
    ensures c !in r
    ensures |r| <= |s|
  {
    if s == [] then []
    else if s[0] == c then RemoveChar(s[1..], c)
    else [s[0]] + RemoveChar(s[1..], c)
  }

  lemma {:induction false} RemoveConcat(a: string, b: string, c: char)
    ensures RemoveChar(a + b, c) == RemoveChar(a, c) + RemoveChar(b, c)
    decreases |a|
  {
    if a != [] {
      assert (a + b)[0] == a[0];
      assert (a + b)[1..] == a[1..] + b;
      RemoveConcat(a[1..], b, c);
    } else {
      assert a + b == b;
    }
  }

  lemma {:induction false} RemoveAbsent(s: string, c: char)
    requires c !in s
    ensures RemoveChar(s, c) == s
  {
    if s != [] {
      RemoveAbsent(s[1..], c);
      assert [s[0]] + s[1..] == s;
    }
  }

  // ---------------------------------------------------------------------
  // Python's `split(sep)[-1]` for a multi-character separator

  /** Where the last piece of `s.split(m)` starts, scanning from `p` with
      the current piece starting at `start`: each occurrence found left to
      right (without overlap) starts a new piece after it. */
  function PieceStart(s: string, m: string, start: nat, p: nat): (k: nat)
    requires |m| > 0 && start <= p <= |s|
    requires forall j :: start <= j < p ==> !OccursAt(s, m, j)
    ensures start <= k <= |s|
    ensures forall j :: k <= j ==> !OccursAt(s, m, j)
    ensures k == start || (|m| <= k && OccursAt(s, m, k - |m|))
    ensures k == start ==> forall j :: start <= j ==> !OccursAt(s, m, j)
    decreases |s| - p
  {
    if p + |m| > |s| then start
    else if s[p..p + |m|] == m then PieceStart(s, m, p + |m|, p + |m|)
    else PieceStart(s, m, start, p + 1)
  }

  /** The last piece of `s.split(m)`: what follows the last separator found
      by a left-to-right scan, or `s` itself when `m` does not occur. */
  function LastPiece(s: string, m: string): (r: string)
    requires |m| > 0
    ensures |r| <= |s| && r == s[|s| - |r|..]
    ensures !Contains(r, m)
  {
    var k := PieceStart(s, m, 0, 0);
    var r := s[k..];
    assert !Contains(r, m) by {
      if IndexOf(r, m).Some? {
        OccursInSuffix(s, m, k, IndexOf(r, m).value);
      }
    }
    r
  }

  lemma OccursInSuffix(s: string, m: string, a: nat, k: int)
    requires a <= |s| && OccursAt(s[a..], m, k)
    ensures OccursAt(s, m, a + k)
  {
    assert s[a..][k..k + |m|] == s[a + k..a + k + |m|];
  }

  /** When the separator occurs, the last piece follows an occurrence of it. */
  lemma LastPieceFollowsSeparator(s: string, m: string)
    requires |m| > 0 && Contains(s, m)
    ensures OccursAt(s, m, |s| - |LastPiece(s, m)| - |m|)
  {
    assert OccursAt(s, m, IndexOf(s, m).value);
  }

  /** A separator none of whose later characters equals its first cannot
      overlap itself: two occurrences are at least its length apart. */
  predicate NoSelfOverlap(m: string) {
    |m| > 0 && forall d :: 0 < d < |m| ==> m[d] != m[0]
  }

  /** Where two occurrences overlap, the later one's first character is
      also a character of the earlier one. */
  lemma OverlapChar(s: string, m: string, p: int, q: int)
    requires OccursAt(s, m, p) && OccursAt(s, m, q) && p < q < p + |m|
    ensures m[q - p] == m[0]
  {
    assert s[q] == s[p..p + |m|][q - p];
  }

  lemma Apart(s: string, m: string, p: int, q: int)
    requires NoSelfOverlap(m) && OccursAt(s, m, p) && OccursAt(s, m, q) && p <= q
    ensures q == p || q >= p + |m|
  {
    if p < q < p + |m| {
      OverlapChar(s, m, p, q);
    }
  }

  lemma SuffixOccurrence(s: string, m: string, st: int, p: int)
    requires 0 <= st <= p && OccursAt(s, m, p)
    ensures Contains(s[st..], m)
  {
    assert s[st..][p - st..p - st + |m|] == s[p..p + |m|];
    ContainsAt(s[st..], m, p - st);
  }

  /** A suffix that follows one occurrence and holds none cannot start
      before the end of a later occurrence. */
  lemma NotBefore(s: string, m: string, k: int, st: int)
    requires NoSelfOverlap(m) && |m| <= k <= |s| && OccursAt(s, m, k - |m|)
    requires |m| <= st <= |s| && OccursAt(s, m, st - |m|) && !Contains(s[st..], m)
    ensures st >= k
  {
    if st <= k - |m| {
      SuffixOccurrence(s, m, st, k - |m|);
    } else if st < k {
      Apart(s, m, st - |m|, k - |m|);
    }
  }

  /** Splitting at the last separator: what follows a separator and holds
      none is the last piece. */
  lemma LastPieceAfter(a: string, m: string, t: string)
    requires NoSelfOverlap(m) && !Contains(t, m)
    ensures LastPiece(a + m + t, m) == t
  {
    var s := a + m + t;
    var k := |a| + |m|;
    assert OccursAt(s, m, |a|) by {
      assert s[|a|..k] == m;
    }
    assert s[k..] == t;
    ContainsAt(s, m, |a|);
    var r := LastPiece(s, m);
    LastPieceFollowsSeparator(s, m);
    var st := |s| - |r|;
    assert s[st..] == r;
    NotBefore(s, m, k, st);
    NotBefore(s, m, st, k);
  }

  // ---------------------------------------------------------------------
  // Python's `int()`: optional sign and ASCII digits, surrounding whitespace ignored

  predicate IsDigit(c: char) { '0' <= c <= '9' }

  predicate AllDigits(s: string) {
    |s| > 0 && forall i :: 0 <= i < |s| ==> IsDigit(s[i])
  }

  function DigitsValue(s: string): nat
    requires forall i :: 0 <= i < |s| ==> IsDigit(s[i])
  {
    if s == [] then 0
    else
      assert IsDigit(s[|s| - 1]);
      10 * DigitsValue(s[..|s| - 1]) + (s[|s| - 1] as int - '0' as int)
  }

  /** Python's `int(s)`, None where it raises ValueError. */
  function ParseInt(s: string): Option<int> {
    var t := Strip(s);
    if |t| > 0 && (t[0] == '+' || t[0] == '-') && AllDigits(t[1..]) then
      var v: int := DigitsValue(t[1..]);
      Some(if t[0] == '-' then -v else v)
    else if AllDigits(t) then Some(DigitsValue(t))
    else None
  }

  /** The decimal digits of a natural number. */
  function NatDigits(n: nat): (s: string)
    ensures AllDigits(s)
  {
    if n < 10 then [('0' as int + n) as char]
    else NatDigits(n / 10) + [('0' as int + n % 10) as char]
  }

  /** Python's `str(n)` for an integer. */
  function Decimal(n: int): string {
    if n < 0 then "-" + NatDigits(-n) else NatDigits(n)
  }

  lemma {:induction false} NatDigitsValue(n: nat)
    ensures DigitsValue(NatDigits(n)) == n
  {
    if n >= 10 {
      NatDigitsValue(n / 10);
      var s := NatDigits(n);
      assert s[..|s| - 1] == NatDigits(n / 10);
    }
  }

  /** `int(str(n)) == n`. */
  lemma ParseDecimal(n: int)
    ensures ParseInt(Decimal(n)) == Some(n)
  {
    var d := Decimal(n);
    var digits := NatDigits(if n < 0 then -n else n);
    NatDigitsValue(if n < 0 then -n else n);
    assert !IsSpace(d[0]) && !IsSpace(d[|d| - 1]);
    StripUnpadded(d);
    if n < 0 {
      assert d[1..] == digits;
    }
  }

  // ---------------------------------------------------------------------
  // The shape of a `float()` literal

  function CountChar(s: string, c: char): nat {
    if s == [] then 0 else (if s[0] == c then 1 else 0) + CountChar(s[1..], c)
  }

  lemma {:induction false} CountConcat(a: string, b: string, c: char)
    ensures CountChar(a + b, c) == CountChar(a, c) + CountChar(b, c)
    decreases |a|
  {
    if a != [] {
      assert (a + b)[0] == a[0];
      assert (a + b)[1..] == a[1..] + b;
      CountConcat(a[1..], b, c);
    } else {
      assert a + b == b;
    }
  }

  lemma {:induction false} CountAbsent(s: string, c: char)
    requires c !in s
    ensures CountChar(s, c) == 0
  {
    if s != [] {
      CountAbsent(s[1..], c);
    }
  }

  /** `s.split(sep)` has one piece more than `s` has separators. */
  lemma {:induction false} SplitCount(s: string, sep: char)
    ensures |Split(s, sep)| == CountChar(s, sep) + 1
    decreases |s|
  {
    if s != [] {
      SplitCount(s[1..], sep);
    }
  }

  /** Plain decimal notation: an optional sign, digits with at most one
      decimal point, at least one digit. */
  predicate IsDecimalLiteral(s: string) {
    var u := if |s| > 0 && (s[0] == '+' || s[0] == '-') then s[1..] else s;
    && (exists i :: 0 <= i < |u| && IsDigit(u[i]))
    && (forall i :: 0 <= i < |u| ==> IsDigit(u[i]) || u[i] == '.')
    && CountChar(u, '.') <= 1
  }

  /** Whether Python's `float(s)` accepts `s`, in plain decimal notation. */
  predicate IsFloatText(s: string) {
    IsDecimalLiteral(Strip(s))
  }
}

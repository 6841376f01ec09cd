/** The JavaScript string primitives the scripts rely on, written out over
    Dafny strings: `trim`, `split` on a one-character separator, `Array.join`,
    `indexOf`, `replace` with a string pattern (first occurrence only),
    number-to-string conversion and the `<` order on strings. */
module JsText {

  datatype Option<T> = None | Some(value: T)

  // ---------------------------------------------------------------------------
  // trim

  /** The characters `String.prototype.trim` removes: the WhiteSpace and
      LineTerminator code points of ECMAScript. */
  predicate IsSpace(c: char) {
    || c == '\t' || c == '\n' || c == '\U{B}' || c == '\U{C}' || c == '\r'
    || c == ' ' || c == '\U{A0}' || c == '\U{1680}'
    || ('\U{2000}' <= c <= '\U{200A}')
    || c == '\U{2028}' || c == '\U{2029}' || c == '\U{202F}'
    || c == '\U{205F}' || c == '\U{3000}' || c == '\U{FEFF}'
  }

  function TrimStart(s: string): (r: string)
    ensures |r| <= |s| && r == s[|s| - |r|..]
    ensures forall k :: 0 <= k < |s| - |r| ==> IsSpace(s[k])
    ensures r != [] ==> !IsSpace(r[0])
  {
    if s != [] && IsSpace(s[0]) then TrimStart(s[1..]) else s
  }

  function TrimEnd(s: string): (r: string)
    ensures |r| <= |s| && r == s[..|r|]
    ensures forall k :: |r| <= k < |s| ==> IsSpace(s[k])
    ensures r != [] ==> !IsSpace(r[|r| - 1])
  {
    if s != [] && IsSpace(s[|s| - 1]) then TrimEnd(s[..|s| - 1]) else s
  }

  /** How many leading white-space characters `TrimStart` drops. */
  function TrimOffset(s: string): (n: nat)
    ensures n <= |s|
  {
    |s| - |TrimStart(s)|
  }

  lemma SuffixSpaces(s: string, t: string, r: string)
    requires |t| <= |s| && t == s[|s| - |t|..]
    requires |r| <= |t| && r == t[..|r|]
    requires forall k :: |r| <= k < |t| ==> IsSpace(t[k])
    ensures r == s[|s| - |t|..|s| - |t| + |r|]
    ensures forall k :: |s| - |t| + |r| <= k < |s| ==> IsSpace(s[k])
  {
    var n := |s| - |t|;
    forall k | n + |r| <= k < |s| ensures IsSpace(s[k]) {
      assert s[k] == t[k - n];
    }
  }

  /** `s.trim()`: the infix of `s` left after dropping white space on both
      sides; it neither starts nor ends with white space. */
  function Trim(s: string): (r: string)
    ensures TrimOffset(s) + |r| <= |s| && r == s[TrimOffset(s)..TrimOffset(s) + |r|]
    ensures forall k :: 0 <= k < TrimOffset(s) ==> IsSpace(s[k])
    ensures forall k :: TrimOffset(s) + |r| <= k < |s| ==> IsSpace(s[k])
    ensures r != [] ==> !IsSpace(r[0]) && !IsSpace(r[|r| - 1])
  {
    var t := TrimStart(s);
    var r := TrimEnd(t);
    SuffixSpaces(s, t, r);
    r
  }

  /** A line with no white space at either end comes out of `trim` without
      its final line break. */
  lemma TrimLine(x: string)
    requires x != [] && !IsSpace(x[0]) && !IsSpace(x[|x| - 1])
    ensures Trim(x + "\n") == x
  {
    var s := x + "\n";
    assert s[0] == x[0] && s[|x| - 1] == x[|x| - 1] && IsSpace(s[|x|]);
    var r := Trim(s);
    assert TrimOffset(s) == 0;
    assert |r| == |x|;
    assert r == s[..|x|] == x;
  }

  // ---------------------------------------------------------------------------
  // indexOf, startsWith, replace

  predicate OccursAt(s: string, pat: string, i: nat) {
    i + |pat| <= |s| && s[i..i + |pat|] == pat
  }

  function IndexFrom(s: string, pat: string, from: nat): (r: Option<nat>)
    requires from <= |s|
    ensures r.Some? ==>
      from <= r.value && OccursAt(s, pat, r.value) && forall j :: from <= j < r.value ==> !OccursAt(s, pat, j)
    ensures r.None? ==> forall j :: from <= j <= |s| ==> !OccursAt(s, pat, j)
    decreases |s| - from
  {
    if OccursAt(s, pat, from) then Some(from)
    else if from == |s| then None
    else IndexFrom(s, pat, from + 1)
  }

  /** `s.indexOf(pat)`: the least position at which `pat` occurs, if any. */
  function IndexOf(s: string, pat: string): (r: Option<nat>)
    ensures r.Some? ==>
      OccursAt(s, pat, r.value) && forall j :: 0 <= j < r.value ==> !OccursAt(s, pat, j)
    ensures r.None? ==> forall j :: 0 <= j <= |s| ==> !OccursAt(s, pat, j)
  {
    IndexFrom(s, pat, 0)
  }

  /** A one-character pattern found first at `i` cuts the text into what
      comes before it, which does not hold the character, and what follows. */
  lemma IndexOfChar(s: string, c: char, i: nat)
    requires IndexOf(s, [c]) == Some(i)
    ensures i < |s| && s == s[..i] + [c] + s[i + 1..]
    ensures c !in s[..i]
  {
    forall k | 0 <= k < i ensures s[k] != c {
      assert !OccursAt(s, [c], k);
    }
  }

  predicate StartsWith(s: string, prefix: string) {
    |prefix| <= |s| && s[..|prefix|] == prefix
  }

  /** `s.replace(pat, rep)` with a string pattern: only the first occurrence
      is replaced, and `s` is returned unchanged when `pat` does not occur.
      (The replacement strings used by the scripts contain no `$`.) */
  function ReplaceFirst(s: string, pat: string, rep: string): string {
    match IndexOf(s, pat)
    case None => s
    case Some(i) => s[..i] + rep + s[i + |pat|..]
  }

  /** When `pat` first occurs at `i`, everything before it and after it is
      kept, and `rep` stands in its place; with no occurrence the text is
      untouched. */
  lemma ReplaceFirstSpec(s: string, pat: string, rep: string, i: nat)
    requires OccursAt(s, pat, i)
    requires forall j :: 0 <= j < i ==> !OccursAt(s, pat, j)
    ensures ReplaceFirst(s, pat, rep) == s[..i] + rep + s[i + |pat|..]
  {
    var r := IndexOf(s, pat);
    assert r.Some?;
    assert !(r.value < i);
  }

  /** `replace` rewrites the first occurrence: when `pat` does not occur
      anywhere that starts inside `a`, the one right after `a` is replaced. */
  lemma ReplaceFirstAt(a: string, pat: string, b: string, rep: string)
    requires forall j :: 0 <= j < |a| ==> !OccursAt(a + pat + b, pat, j)
    ensures ReplaceFirst(a + pat + b, pat, rep) == a + rep + b
  {
    var s := a + pat + b;
    assert s[|a|..|a| + |pat|] == pat;
    ReplaceFirstSpec(s, pat, rep, |a|);
    assert s[..|a|] == a && s[|a| + |pat|..] == b;
  }

  /** A text that starts with the pattern has that first occurrence
      replaced. */
  lemma ReplaceAtStart(s: string, pat: string, rep: string)
    requires StartsWith(s, pat)
    ensures ReplaceFirst(s, pat, rep) == rep + s[|pat|..]
  {
    assert OccursAt(s, pat, 0);
    ReplaceFirstSpec(s, pat, rep, 0);
    assert s[..0] == [];
  }

  // ---------------------------------------------------------------------------
  // split and join

  /** `parts.join(sep)`. */
  function Join(parts: seq<string>, sep: string): (r: string)
    ensures |parts| == 1 ==> r == parts[0]
  {
    if |parts| == 0 then ""
    else if |parts| == 1 then parts[0]
    else parts[0] + sep + Join(parts[1..], sep)
  }

  lemma {:induction false} JoinAppend(a: seq<string>, b: seq<string>, sep: string)
    requires a != [] && b != []
    ensures Join(a + b, sep) == Join(a, sep) + sep + Join(b, sep)
    decreases |a|
  {
    if |a| == 1 {
      assert (a + b)[1..] == b;
    } else {
      assert (a + b)[1..] == a[1..] + b;
      JoinAppend(a[1..], b, sep);
    }
  }

  /** Strings written one after another (`+=` in a loop). */
  function Flatten(parts: seq<string>): string {
    if parts == [] then "" else Flatten(parts[..|parts| - 1]) + parts[|parts| - 1]
  }

  lemma {:induction false} FlattenAppend(a: seq<string>, b: seq<string>)
    ensures Flatten(a + b) == Flatten(a) + Flatten(b)
    decreases |b|
  {
    if b == [] {
      assert a + b == a;
    } else {
      var ab := a + b;
      assert ab[..|ab| - 1] == a + b[..|b| - 1] && ab[|ab| - 1] == b[|b| - 1];
      FlattenAppend(a, b[..|b| - 1]);
    }
  }

  lemma FlattenStep(parts: seq<string>, i: nat)
    requires i < |parts|
    ensures Flatten(parts[..i + 1]) == Flatten(parts[..i]) + parts[i]
  {
    assert parts[..i + 1][..i] == parts[..i];
  }

  /** Two lines, then at least one more, then a final separator. */
  lemma JoinFramed(a: string, b: string, rows: seq<string>, sep: string)
    requires rows != []
    ensures Join([a, b] + rows + [""], sep) == a + sep + b + sep + Join(rows, sep) + sep
  {
    JoinAppend(rows, [""], sep);
    JoinAppend([a, b], rows + [""], sep);
    assert [a, b][1..] == [b];
    assert [a, b] + rows + [""] == [a, b] + (rows + [""]);
  }

  /** `s.split(sep)` for a one-character separator: always at least one
      piece, no piece contains the separator, and joining the pieces back
      gives `s` again. An empty string gives one empty piece. */
  function Split(s: string, sep: char): (r: seq<string>)
    ensures |r| >= 1
    ensures forall i :: 0 <= i < |r| ==> sep !in r[i]
    ensures Join(r, [sep]) == s
    decreases |s|
  {
    match IndexOf(s, [sep])
    case None =>
      assert sep !in s by {
        forall k | 0 <= k < |s| ensures s[k] != sep {
          assert !OccursAt(s, [sep], k);
        }
      }
      [s]
    case Some(i) =>
      var head := s[..i];
      var rest := Split(s[i + 1..], sep);
      assert sep !in head by {
        forall k | 0 <= k < i ensures s[k] != sep {
          assert !OccursAt(s, [sep], k);
        }
      }
      assert s == head + [sep] + s[i + 1..];
      [head] + rest
  }

  /** The other direction of the round trip: splitting the join of pieces
      that do not contain the separator gives the pieces back. */
  lemma {:induction false} SplitJoin(parts: seq<string>, sep: char)
    requires |parts| >= 1
    requires forall i :: 0 <= i < |parts| ==> sep !in parts[i]
    ensures Split(Join(parts, [sep]), sep) == parts
    decreases |parts|
  {
    var s := Join(parts, [sep]);
    if |parts| == 1 {
      forall j | 0 <= j <= |s| ensures !OccursAt(s, [sep], j) {
        assert j < |s| ==> s[j] != sep;
      }
      assert IndexOf(s, [sep]).None?;
    } else {
      var p := parts[0];
      var tail := Join(parts[1..], [sep]);
      assert s == p + [sep] + tail;
      assert OccursAt(s, [sep], |p|);
      forall j | 0 <= j < |p| ensures !OccursAt(s, [sep], j) {
        assert s[j] == p[j];
      }
      var r := IndexOf(s, [sep]);
      assert r.Some?;
      assert !(r.value < |p|);
      assert r == Some(|p|);
      assert s[..|p|] == p;
      assert s[|p| + 1..] == tail;
      SplitJoin(parts[1..], sep);
    }
  }

  // ---------------------------------------------------------------------------
  // numbers as decimal text

  predicate IsDigit(c: char) { '0' <= c <= '9' }

  function DigitChar(d: nat): (c: char)
    requires d < 10
    ensures IsDigit(c)
  {
    ('0' as int + d) as char
  }

  function DigitValue(c: char): nat
    requires IsDigit(c)
  {
    c as int - '0' as int
  }

  predicate AllDigits(s: string) {
    forall k :: 0 <= k < |s| ==> IsDigit(s[k])
  }

  /** The number a run of decimal digits denotes (leading zeros allowed, as
      in the unary `+` on digit text). */
  function DigitsValue(s: string): nat
    requires AllDigits(s)
  {
    if s == [] then 0 else DigitsValue(s[..|s| - 1]) * 10 + DigitValue(s[|s| - 1])
  }

  /** `String(n)` for a non-negative integer: canonical decimal digits. */
  function NatToString(n: nat): (r: string)
    ensures |r| >= 1 && AllDigits(r)
    ensures r[0] == '0' ==> n == 0 && r == "0"
    ensures DigitsValue(r) == n
    ensures DigitValue(r[|r| - 1]) == n % 10
  {
    if n < 10 then [DigitChar(n)]
    else
      var r := NatToString(n / 10) + [DigitChar(n % 10)];
      assert r[..|r| - 1] == NatToString(n / 10);
      r
  }

  /** `String(i)` for an integer, with a leading `-` for negative values. */
  function IntToString(i: int): (r: string)
    ensures |r| >= 1
    ensures i >= 0 ==> r == NatToString(i)
    ensures i < 0 ==> r == "-" + NatToString(-i)
  {
    if i < 0 then "-" + NatToString(-i) else NatToString(i)
  }

  lemma NatToStringFourDigits(n: nat)
    requires 1000 <= n < 10000
    ensures |NatToString(n)| == 4
  {
    assert NatToString(n) == NatToString(n / 10) + [DigitChar(n % 10)];
    assert NatToString(n / 10) == NatToString(n / 100) + [DigitChar((n / 10) % 10)];
    assert NatToString(n / 100) == NatToString(n / 1000) + [DigitChar((n / 100) % 10)];
  }

  // ---------------------------------------------------------------------------
  // the `<` order on strings

  /** JavaScript compares strings by UTF-16 code units. A character beyond
      U+FFFF is two units whose first is a high surrogate, so it sorts by
      that surrogate against a single-unit character. */
  function FirstCodeUnit(c: char): nat {
    if c as int < 0x1_0000 then c as int else 0xD800 + (c as int - 0x1_0000) / 0x400
  }

  predicate CharLess(a: char, b: char) {
    if (a as int < 0x1_0000) == (b as int < 0x1_0000) then a < b
    else FirstCodeUnit(a) < FirstCodeUnit(b)
  }

  /** `a < b` on strings: a proper prefix is smaller; otherwise the first
      differing character decides. */
  predicate LexLess(a: string, b: string) {
    if a == [] then b != []
    else if b == [] then false
    else if a[0] != b[0] then CharLess(a[0], b[0])
    else LexLess(a[1..], b[1..])
  }

  lemma CharLessTotal(a: char, b: char)
    ensures a != b ==> CharLess(a, b) || CharLess(b, a)
    ensures !(CharLess(a, b) && CharLess(b, a))
  {
  }

  lemma CharLessTransitive(a: char, b: char, c: char)
    requires CharLess(a, b) && CharLess(b, c)
    ensures CharLess(a, c)
  {
  }

  lemma {:induction false} LexLessIrreflexive(a: string)
    ensures !LexLess(a, a)
    decreases |a|
  {
    if a != [] { LexLessIrreflexive(a[1..]); }
  }

  lemma {:induction false} LexLessTotal(a: string, b: string)
    ensures a != b ==> LexLess(a, b) || LexLess(b, a)
    ensures !(LexLess(a, b) && LexLess(b, a))
    decreases |a|
  {
    if a != [] && b != [] {
      CharLessTotal(a[0], b[0]);
      if a[0] == b[0] {
        assert a == [a[0]] + a[1..] && b == [b[0]] + b[1..];
        LexLessTotal(a[1..], b[1..]);
      }
    }
  }

  lemma {:induction false} LexLessTransitive(a: string, b: string, c: string)
    requires LexLess(a, b) && LexLess(b, c)
    ensures LexLess(a, c)
    decreases |a|
  {
    if a != [] {
      if a[0] != b[0] && b[0] != c[0] {
        CharLessTransitive(a[0], b[0], c[0]);
        CharLessTotal(a[0], c[0]);
      } else if a[0] == b[0] && b[0] == c[0] {
        LexLessTransitive(a[1..], b[1..], c[1..]);
      }
    }
  }

  /** Comparing two concatenations whose first parts have equal length:
      the first parts decide, and only when they are equal do the second
      parts. */
  lemma {:induction false} LexLessConcat(a: string, b: string, c: string, d: string)
    requires |a| == |c|
    ensures LexLess(a + b, c + d) <==> LexLess(a, c) || (a == c && LexLess(b, d))
    decreases |a|
  {
    if a == [] {
      assert a + b == b && c + d == d;
    } else {
      assert (a + b)[0] == a[0] && (c + d)[0] == c[0];
      assert (a + b)[1..] == a[1..] + b && (c + d)[1..] == c[1..] + d;
      LexLessConcat(a[1..], b, c[1..], d);
      assert a == [a[0]] + a[1..] && c == [c[0]] + c[1..];
      assert LexLess(a, c) == if a[0] != c[0] then CharLess(a[0], c[0]) else LexLess(a[1..], c[1..]);
    }
  }

  /** Digit strings of equal length compare as the numbers they denote. */
  lemma {:induction false} LexLessDigits(a: string, b: string)
    requires |a| == |b| && AllDigits(a) && AllDigits(b)
    ensures LexLess(a, b) <==> DigitsValue(a) < DigitsValue(b)
    ensures a == b <==> DigitsValue(a) == DigitsValue(b)
    decreases |a|
  {
    if a != [] {
      var n := |a|;
      var a', b' := a[..n - 1], b[..n - 1];
      LexLessDigits(a', b');
      assert a == a' + [a[n - 1]] && b == b' + [b[n - 1]];
      LexLessConcat(a', [a[n - 1]], b', [b[n - 1]]);
      assert LexLess([a[n - 1]], [b[n - 1]]) <==> a[n - 1] < b[n - 1] by {
        assert [a[n - 1]][1..] == [] && [b[n - 1]][1..] == [];
      }
    }
  }
}

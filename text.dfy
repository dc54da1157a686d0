/** The JavaScript string operations the puzzle parsers rely on:
    `String.prototype.split` with a string separator, `trim`, splitting on
    `/\s+/`, `slice` with negative indices, `Number(...)` and `parseInt(..., 10)`
    on decimal text, and `String(n)` for integers. */
module Text {
  import opened Wrappers

  type String = seq<char>

  // ---------------------------------------------------------------------------
  // split / join

  predicate OccursAt(s: String, sep: String, i: nat)
  {
    i + |sep| <= |s| && s[i..i + |sep|] == sep
  }

  /** The first index at which `sep` occurs in `s`, searching from `from`. */
  function IndexOfFrom(s: String, sep: String, from: nat): (r: Option<nat>)
    requires |sep| > 0
    ensures r.Some? ==>
              from <= r.value && OccursAt(s, sep, r.value)
              && forall k :: from <= k < r.value ==> !OccursAt(s, sep, k)
    ensures r.None? ==> forall k :: from <= k ==> !OccursAt(s, sep, k)
    decreases |s| - from
  {
    if from + |sep| > |s| then None
    else if s[from..from + |sep|] == sep then Some(from)
    else IndexOfFrom(s, sep, from + 1)
  }

  /** `s.split(sep)` for a non-empty separator string. */
  function Split(s: String, sep: String): (parts: seq<String>)
    requires |sep| > 0
    ensures |parts| >= 1
    decreases |s|
  {
    match IndexOfFrom(s, sep, 0)
    case None => [s]
    case Some(i) => [s[..i]] + Split(s[i + |sep|..], sep)
  }

  /** `parts.join(sep)` */
  function Join(parts: seq<String>, sep: String): String
  {
    if |parts| == 0 then ""
    else if |parts| == 1 then parts[0]
    else parts[0] + sep + Join(parts[1..], sep)
  }

  /** Joining the pieces of a split with the same separator gives back the input. */
  lemma {:induction false} JoinSplit(s: String, sep: String)
    requires |sep| > 0
    ensures Join(Split(s, sep), sep) == s
    decreases |s|
  {
    match IndexOfFrom(s, sep, 0)
    case None =>
    case Some(i) =>
      var rest := s[i + |sep|..];
      var tail := Split(rest, sep);
      JoinSplit(rest, sep);
      var parts := [s[..i]] + tail;
      assert Split(s, sep) == parts;
      assert parts[1..] == tail;
      assert Join(parts, sep) == s[..i] + sep + Join(tail, sep);
      assert s == s[..i] + s[i..i + |sep|] + rest;
  }

  /** The text before the first occurrence of `sep` does not contain it. */
  lemma BeforeFirstOccurrence(s: String, sep: String, i: nat, k: nat)
    requires |sep| > 0 && IndexOfFrom(s, sep, 0) == Some(i)
    ensures !OccursAt(s[..i], sep, k)
  {
    if OccursAt(s[..i], sep, k) {
      SliceOfPrefix(s, i, k, k + |sep|);
      assert OccursAt(s, sep, k);
      assert false;
    }
  }

  /** No piece of a split contains the separator. */
  lemma {:induction false} SplitPiecesAvoidSeparator(s: String, sep: String, p: nat, k: nat)
    requires |sep| > 0
    requires p < |Split(s, sep)|
    ensures !OccursAt(Split(s, sep)[p], sep, k)
    decreases |s|
  {
    match IndexOfFrom(s, sep, 0)
    case None =>
    case Some(i) =>
      var rest := s[i + |sep|..];
      assert Split(s, sep) == [s[..i]] + Split(rest, sep);
      if p == 0 {
        assert Split(s, sep)[0] == s[..i];
        BeforeFirstOccurrence(s, sep, i, k);
      } else {
        assert Split(s, sep)[p] == Split(rest, sep)[p - 1];
        SplitPiecesAvoidSeparator(rest, sep, p - 1, k);
      }
  }

  // ---------------------------------------------------------------------------
  // whitespace, trim and /\s+/

  /** The characters JavaScript's `trim` and `\s` treat as white space:
      the ASCII ones, the byte-order mark, the line and paragraph
      separators and the space separators of Unicode category Zs. */
  predicate IsWhitespace(c: char)
  {
    c == ' ' || c == '\t' || c == '\n' || c == '\r' || c == '\U{000B}' || c == '\U{000C}'
    || c == '\U{00A0}' || c == '\U{1680}' || ('\U{2000}' <= c <= '\U{200A}')
    || c == '\U{2028}' || c == '\U{2029}' || c == '\U{202F}' || c == '\U{205F}'
    || c == '\U{3000}' || c == '\U{FEFF}'
  }

  function TrimStart(s: String): (r: String)
    ensures |r| <= |s| && r == s[|s| - |r|..]
    ensures |r| > 0 ==> !IsWhitespace(r[0])
    ensures forall k :: 0 <= k < |s| - |r| ==> IsWhitespace(s[k])
  {
    if |s| > 0 && IsWhitespace(s[0]) then TrimStart(s[1..]) else s
  }

  function TrimEnd(s: String): (r: String)
    ensures |r| <= |s| && r == s[..|r|]
    ensures |r| > 0 ==> !IsWhitespace(r[|r| - 1])
    ensures forall k :: |r| <= k < |s| ==> IsWhitespace(s[k])
  {
    if |s| > 0 && IsWhitespace(s[|s| - 1]) then TrimEnd(s[..|s| - 1]) else s
  }

  /** `s.trim()`: `s` without its leading and trailing white space. */
  function Trim(s: String): (r: String)
    ensures |r| > 0 ==> !IsWhitespace(r[0]) && !IsWhitespace(r[|r| - 1])
  {
    TrimEnd(TrimStart(s))
  }

  /** Trimming keeps a contiguous slice and drops only white space around it. */
  lemma TrimIsSlice(s: String) returns (i: nat, j: nat)
    ensures i <= j <= |s| && Trim(s) == s[i..j]
    ensures forall k :: 0 <= k < i ==> IsWhitespace(s[k])
    ensures forall k :: j <= k < |s| ==> IsWhitespace(s[k])
  {
    var t := TrimStart(s);
    i := |s| - |t|;
    assert t == s[i..];
    var u := TrimEnd(t);
    j := i + |u|;
    forall k | j <= k < |s| ensures IsWhitespace(s[k]) {
      assert s[k] == t[k - i];
    }
    assert u == t[..|u|];
    SliceOfSuffix(s, i, |u|);
  }

  lemma SliceOfPrefix<T>(s: seq<T>, i: nat, a: nat, b: nat)
    requires a <= b <= i <= |s|
    ensures s[..i][a..b] == s[a..b]
  {
  }

  lemma SliceOfSuffix<T>(s: seq<T>, i: nat, m: nat)
    requires i + m <= |s|
    ensures s[i..][..m] == s[i..i + m]
  {
  }

  /** The index just past the run of white space that starts at `i`. */
  function EndOfWhitespace(s: String, i: nat): (j: nat)
    requires i <= |s|
    ensures i <= j <= |s|
    ensures forall k :: i <= k < j ==> IsWhitespace(s[k])
    ensures j < |s| ==> !IsWhitespace(s[j])
    decreases |s| - i
  {
    if i < |s| && IsWhitespace(s[i]) then EndOfWhitespace(s, i + 1) else i
  }

  function FirstWhitespace(s: String): (r: Option<nat>)
    ensures r.Some? ==>
              r.value < |s| && IsWhitespace(s[r.value])
              && forall k :: 0 <= k < r.value ==> !IsWhitespace(s[k])
    ensures r.None? ==> forall k :: 0 <= k < |s| ==> !IsWhitespace(s[k])
  {
    if |s| == 0 then None
    else if IsWhitespace(s[0]) then Some(0)
    else match FirstWhitespace(s[1..])
      case None => None
      case Some(k) => Some(k + 1)
  }

  /** `s.split(/\s+/)`: the pieces between maximal runs of white space. */
  function SplitWhitespace(s: String): (parts: seq<String>)
    ensures |parts| >= 1
    ensures forall p, k :: 0 <= p < |parts| && 0 <= k < |parts[p]| ==> !IsWhitespace(parts[p][k])
    decreases |s|
  {
    match FirstWhitespace(s)
    case None => [s]
    case Some(i) => [s[..i]] + SplitWhitespace(s[EndOfWhitespace(s, i)..])
  }

  /** On a trimmed, non-empty string every piece of the `/\s+/` split is non-empty. */
  lemma {:induction false} SplitWhitespaceOfTrimmed(s: String)
    requires |s| > 0 && !IsWhitespace(s[0]) && !IsWhitespace(s[|s| - 1])
    ensures forall p :: 0 <= p < |SplitWhitespace(s)| ==> |SplitWhitespace(s)[p]| > 0
    decreases |s|
  {
    match FirstWhitespace(s)
    case None =>
    case Some(i) =>
      var j := EndOfWhitespace(s, i);
      assert j < |s|;
      SplitWhitespaceOfTrimmed(s[j..]);
  }

  function Filter(xs: seq<String>, keep: String -> bool): (r: seq<String>)
    ensures |r| <= |xs|
    ensures forall k :: 0 <= k < |r| ==> keep(r[k])
  {
    if |xs| == 0 then []
    else (if keep(xs[0]) then [xs[0]] else []) + Filter(xs[1..], keep)
  }

  function TrimAll(xs: seq<String>): (r: seq<String>)
    ensures |r| == |xs| && forall k :: 0 <= k < |xs| ==> r[k] == Trim(xs[k])
  {
    if |xs| == 0 then [] else [Trim(xs[0])] + TrimAll(xs[1..])
  }

  /** `input.split(sep).map(line => line.trim()).filter(line => line.length > 0)` */
  function TrimmedNonEmpty(input: String, sep: String): (lines: seq<String>)
    requires |sep| > 0
    ensures forall k :: 0 <= k < |lines| ==> |lines[k]| > 0
  {
    Filter(TrimAll(Split(input, sep)), (l: String) => |l| > 0)
  }

  // ---------------------------------------------------------------------------
  // slice

  /** A `slice` index: negative counts from the end; clamped to `0..len`. */
  function SliceIndex(k: int, len: nat): (r: nat)
    ensures r <= len
  {
    if k < 0 then (if len + k < 0 then 0 else len + k) else if k > len then len else k
  }

  /** `s.slice(start, end)` */
  function Slice<T>(s: seq<T>, start: int, end: int): (r: seq<T>)
  {
    var i := SliceIndex(start, |s|);
    var j := SliceIndex(end, |s|);
    if i <= j then s[i..j] else []
  }

  // ---------------------------------------------------------------------------
  // digits and numbers

  predicate IsDigit(c: char) { '0' <= c <= '9' }

  function DigitValue(c: char): (d: nat)
    requires IsDigit(c)
    ensures d <= 9
  {
    c as int - '0' as int
  }

  function DigitChar(d: nat): (c: char)
    requires d <= 9
    ensures IsDigit(c) && DigitValue(c) == d
  {
    ('0' as int + d) as char
  }

  predicate AllDigits(s: String) { forall k :: 0 <= k < |s| ==> IsDigit(s[k]) }

  /** The value of a string of decimal digits, most significant first. */
  function DigitsValue(s: String): nat
    requires AllDigits(s)
  {
    if |s| == 0 then 0 else 10 * DigitsValue(s[..|s| - 1]) + DigitValue(s[|s| - 1])
  }

  /** `String(n)` for a natural number: its decimal digits, no leading zero. */
  function NatToString(n: nat): (s: String)
    ensures |s| > 0 && AllDigits(s)
    ensures |s| > 1 ==> s[0] != '0'
    decreases n
  {
    if n < 10 then [DigitChar(n)] else NatToString(n / 10) + [DigitChar(n % 10)]
  }

  /** `String(n)` for an integer. */
  function IntToString(n: int): (s: String)
    ensures |s| > 0
  {
    if n < 0 then "-" + NatToString(-n) else NatToString(n)
  }

  lemma {:induction false} DigitsOfNatToString(n: nat)
    ensures DigitsValue(NatToString(n)) == n
    decreases n
  {
    if n >= 10 {
      var s := NatToString(n);
      DigitsOfNatToString(n / 10);
      assert s[..|s| - 1] == NatToString(n / 10);
    }
  }

  /** The length of the leading run of digits of `s`. */
  function DigitRun(s: String): (n: nat)
    ensures n <= |s| && AllDigits(s[..n])
    ensures n < |s| ==> !IsDigit(s[n])
  {
    if |s| > 0 && IsDigit(s[0]) then
      var r := DigitRun(s[1..]);
      assert s[..r + 1] == [s[0]] + s[1..][..r];
      r + 1
    else 0
  }

  /** An optional sign followed by decimal digits, all of `s`. */
  function SignedDigits(s: String): Option<int>
  {
    if |s| > 0 && (s[0] == '-' || s[0] == '+') then
      var body := s[1..];
      if |body| > 0 && AllDigits(body) then
        Some(if s[0] == '-' then -(DigitsValue(body) as int) else DigitsValue(body) as int)
      else None
    else if |s| > 0 && AllDigits(s) then Some(DigitsValue(s) as int)
    else None
  }

  /** `Number(s)` for a string: `None` stands for `NaN`. White space around
      the number is ignored, the empty string is 0, and an optionally signed
      run of decimal digits is its value. */
  function Number(s: String): (r: Option<int>)
    ensures AllDigits(Trim(s)) && |Trim(s)| > 0 ==> r == Some(DigitsValue(Trim(s)) as int)
    ensures |Trim(s)| == 0 ==> r == Some(0)
  {
    var t := Trim(s);
    if |t| == 0 then Some(0) else SignedDigits(t)
  }

  /** `Number.parseInt(s, 10)`: leading white space is skipped, then an
      optional sign and the longest run of digits; `None` is `NaN`. */
  function ParseInt(s: String): Option<int>
  {
    if |s| > 0 && IsWhitespace(s[0]) then ParseInt(s[1..]) else ParseSigned(s)
  }

  /** An optional sign and the longest run of digits after it. */
  function ParseSigned(t: String): Option<int>
  {
    var magnitude := ReadDigits(SkipSign(t), 0, false);
    if magnitude.None? then None
    else Some(if |t| > 0 && t[0] == '-' then -(magnitude.value as int) else magnitude.value as int)
  }

  /** The leading run of digits of `s`, read most significant first onto
      `acc`; `None` when there is none and none was `seen` before. */
  function ReadDigits(s: String, acc: nat, seen: bool): Option<nat>
  {
    if |s| > 0 && IsDigit(s[0]) then ReadDigits(s[1..], 10 * acc + DigitValue(s[0]), true)
    else if seen then Some(acc) else None
  }

  lemma {:induction false} ReadDigitsSeen(s: String, acc: nat)
    ensures ReadDigits(s, acc, true).Some?
  {
    if |s| > 0 && IsDigit(s[0]) {
      ReadDigitsSeen(s[1..], 10 * acc + DigitValue(s[0]));
    }
  }

  /** `parseInt` reads the text left after the leading white space, and
      it is `NaN` exactly when no digit follows the optional sign. */
  lemma {:induction false} ParseIntMeaning(s: String)
    ensures ParseInt(s) == ParseSigned(TrimStart(s))
    ensures ParseInt(s).None? <==> DigitRun(SkipSign(TrimStart(s))) == 0
  {
    if |s| > 0 && IsWhitespace(s[0]) {
      ParseIntMeaning(s[1..]);
    } else {
      var body := SkipSign(s);
      if |body| > 0 && IsDigit(body[0]) {
        ReadDigitsSeen(body[1..], DigitValue(body[0]));
      }
    }
  }

  function SkipSign(t: String): String
  {
    if |t| > 0 && (t[0] == '-' || t[0] == '+') then t[1..] else t
  }

  /** `Number(String(n))` is `n` again. */
  lemma NumberOfNatToString(n: nat)
    ensures Number(NatToString(n)) == Some(n as int)
  {
    var s := NatToString(n);
    assert !IsWhitespace(s[0]);
    assert TrimStart(s) == s;
    assert !IsWhitespace(s[|s| - 1]);
    assert TrimEnd(s) == s;
    DigitsOfNatToString(n);
  }

  /** All the digits of `s` read onto `acc`. */
  function FoldDigits(s: String, acc: nat): nat
    requires AllDigits(s)
  {
    if |s| == 0 then acc else FoldDigits(s[1..], 10 * acc + DigitValue(s[0]))
  }

  lemma {:induction false} ReadAllDigits(s: String, acc: nat, seen: bool)
    requires AllDigits(s) && (seen || |s| > 0)
    ensures ReadDigits(s, acc, seen) == Some(FoldDigits(s, acc))
  {
    if |s| > 0 {
      ReadAllDigits(s[1..], 10 * acc + DigitValue(s[0]), true);
    }
  }

  lemma {:induction false} FoldDigitsSnoc(s: String, c: char, acc: nat)
    requires AllDigits(s) && IsDigit(c)
    ensures FoldDigits(s + [c], acc) == 10 * FoldDigits(s, acc) + DigitValue(c)
  {
    if |s| > 0 {
      assert (s + [c])[1..] == s[1..] + [c];
      FoldDigitsSnoc(s[1..], c, 10 * acc + DigitValue(s[0]));
    } else {
      assert (s + [c])[1..] == [];
    }
  }

  lemma {:induction false} FoldNatToString(n: nat)
    ensures FoldDigits(NatToString(n), 0) == n
    decreases n
  {
    if n < 10 {
      assert NatToString(n)[1..] == [];
    } else {
      FoldNatToString(n / 10);
      FoldDigitsSnoc(NatToString(n / 10), DigitChar(n % 10), 0);
    }
  }

  /** `parseInt(String(n), 10)` is `n` again. */
  lemma ParseIntOfIntToString(n: int)
    ensures ParseInt(IntToString(n)) == Some(n)
  {
    var digits := NatToString(if n < 0 then -n else n);
    ReadAllDigits(digits, 0, false);
    FoldNatToString(if n < 0 then -n else n);
    if n < 0 {
      assert IntToString(n) == "-" + digits;
      assert SkipSign("-" + digits) == digits;
    } else {
      assert SkipSign(digits) == digits;
    }
  }
}

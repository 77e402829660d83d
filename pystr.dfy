/**
 * The Python string built-ins the resolver relies on, on `string` (a `seq<char>`):
 * the substring test `sub in s`, `sep.join(parts)`, `s.split(sep)` (the inverse of
 * join, used to state what a joined list still carries), `int(s)` for a base-10
 * numeral and `str(n)` for an integer.
 */
module PyStr {
  import opened Wrappers

  /** `sub` occurs in `s` as a contiguous block starting at index `k`. */
  ghost predicate OccursAt(sub: string, s: string, k: int)
  {
    0 <= k && k + |sub| <= |s| && s[k..k + |sub|] == sub
  }

  /** Dropping the first character of `s` shifts every occurrence one place left. */
  lemma OccursAtTail(sub: string, s: string)
    requires |s| > 0
    ensures forall k :: 1 <= k ==> (OccursAt(sub, s, k) <==> OccursAt(sub, s[1..], k - 1))
  {
  }

  /** The index of the leftmost occurrence of a non-empty `sep` in `s`, if any. */
  function Find(s: string, sep: string): (r: Option<nat>)
    requires |sep| > 0
    ensures r.Some? ==> OccursAt(sep, s, r.value)
    ensures r.Some? ==> forall j :: 0 <= j < r.value ==> !OccursAt(sep, s, j)
    ensures r.None? ==> forall j :: !OccursAt(sep, s, j)
    decreases |s|
  {
    if |s| < |sep| then None
    else if s[..|sep|] == sep then Some(0)
    else
      OccursAtTail(sep, s);
      match Find(s[1..], sep)
      case None => None
      case Some(k) => Some(k + 1)
  }

  /** Python's `sub in s` on two strings: `sub` occurs somewhere in `s`. */
  function Contains(s: string, sub: string): (r: bool)
    ensures r <==> exists k :: OccursAt(sub, s, k)
  {
    if |sub| == 0 then
      assert OccursAt(sub, s, 0);
      true
    else
      Find(s, sub).Some?
  }

  /** Python's `sep.join(parts)`. */
  function Join(parts: seq<string>, sep: string): string
  {
    if |parts| == 0 then ""
    else if |parts| == 1 then parts[0]
    else parts[0] + sep + Join(parts[1..], sep)
  }

  /** Python's `s.split(sep)` for a non-empty `sep`: the pieces between leftmost occurrences. */
  function Split(s: string, sep: string): (r: seq<string>)
    requires |sep| > 0
    ensures |r| > 0
    decreases |s|
  {
    match Find(s, sep)
    case None => [s]
    case Some(k) => [s[..k]] + Split(s[k + |sep|..], sep)
  }

  /** A piece free of the separator's first character ends exactly where the separator starts. */
  lemma FindAfterFreePiece(p: string, sep: string, rest: string)
    requires |sep| > 0 && sep[0] !in p
    ensures Find(p + sep + rest, sep) == Some(|p|)
  {
    var s := p + sep + rest;
    assert s[|p|..|p| + |sep|] == sep;
    assert OccursAt(sep, s, |p|);
  }

  /** A piece free of the separator's first character holds no separator at all. */
  lemma FindInFreePiece(p: string, sep: string)
    requires |sep| > 0 && sep[0] !in p
    ensures Find(p, sep).None?
  {
  }

  /**
   * Splitting a join recovers the joined pieces, in order, as long as no piece
   * holds the separator's first character.
   */
  lemma {:induction false} SplitJoin(parts: seq<string>, sep: string)
    requires |sep| > 0 && |parts| > 0
    requires forall i :: 0 <= i < |parts| ==> sep[0] !in parts[i]
    ensures Split(Join(parts, sep), sep) == parts
    decreases |parts|
  {
    if |parts| == 1 {
      FindInFreePiece(parts[0], sep);
    } else {
      var head, tail := parts[0], parts[1..];
      var rest := Join(tail, sep);
      var s := head + sep + rest;
      assert Join(parts, sep) == s;
      FindAfterFreePiece(head, sep, rest);
      assert s[..|head|] == head;
      assert s[|head| + |sep|..] == rest;
      assert Split(s, sep) == [head] + Split(rest, sep);
      assert forall i :: 0 <= i < |tail| ==> sep[0] !in tail[i] by {
        forall i | 0 <= i < |tail| ensures sep[0] !in tail[i] {
          assert tail[i] == parts[i + 1];
        }
      }
      SplitJoin(tail, sep);
      assert parts == [head] + tail;
    }
  }

  /** The join of a non-empty list is at least as long as its first piece. */
  lemma {:induction false} JoinLength(parts: seq<string>, sep: string)
    requires |parts| > 0
    ensures |Join(parts, sep)| >= |parts[0]|
  {
  }

  // ---------------------------------------------------------------------------
  // int(s) and str(n)

  predicate IsDigit(c: char)
  {
    '0' <= c <= '9'
  }

  /**
   * The ASCII white space `int()` strips from its argument: space, tab, line feed,
   * vertical tab, form feed and carriage return. The separators U+001C to U+001F,
   * which `str.isspace()` accepts, are not stripped by `int()`.
   */
  predicate IsSpace(c: char)
  {
    c == ' ' || '\t' <= c <= '\r'
  }

  /** Leading white space removed. */
  function StripLeft(s: string): (r: string)
    ensures forall c :: c in s && !IsSpace(c) ==> c in r
    ensures |s| > 0 && !IsSpace(s[0]) ==> r == s
    decreases |s|
  {
    if |s| > 0 && IsSpace(s[0]) then
      assert s == [s[0]] + s[1..];
      StripLeft(s[1..])
    else
      s
  }

  /** Trailing white space removed. */
  function StripRight(s: string): (r: string)
    ensures forall c :: c in s && !IsSpace(c) ==> c in r
    ensures |s| > 0 && !IsSpace(s[|s| - 1]) ==> r == s
    decreases |s|
  {
    if |s| > 0 && IsSpace(s[|s| - 1]) then
      assert s == s[..|s| - 1] + [s[|s| - 1]];
      StripRight(s[..|s| - 1])
    else
      s
  }

  /** The white space `int()` removes around its argument, at both ends. */
  function Strip(s: string): (r: string)
  {
    StripRight(StripLeft(s))
  }

  /**
   * A base-10 numeral as `int()` accepts it: decimal digits, where a single
   * underscore may stand between two digits.
   */
  predicate IsNumeral(s: string)
  {
    && |s| > 0
    && IsDigit(s[0])
    && forall i {:trigger s[i]} :: 0 <= i < |s| ==> IsDigit(s[i]) || (s[i] == '_' && i + 1 < |s| && IsDigit(s[i + 1]))
  }

  /** The value of a numeral; underscores are ignored. */
  function NumeralValue(s: string): nat
    decreases |s|
  {
    if |s| == 0 then 0
    else
      var c := s[|s| - 1];
      if IsDigit(c) then NumeralValue(s[..|s| - 1]) * 10 + (c as int - '0' as int)
      else NumeralValue(s[..|s| - 1])
  }

  /** Python's `int(s)` on a string: `None` where Python raises ValueError. */
  function ParseInt(s: string): Option<int>
  {
    var t := Strip(s);
    if |t| > 0 && (t[0] == '-' || t[0] == '+') then
      if IsNumeral(t[1..]) then
        var magnitude: int := NumeralValue(t[1..]);
        Some(if t[0] == '-' then -magnitude else magnitude)
      else
        None
    else if IsNumeral(t) then
      Some(NumeralValue(t))
    else
      None
  }

  function DigitChar(d: nat): char
    requires d < 10
  {
    ('0' as int + d) as char
  }

  /** Python's `str(n)` for a natural number. */
  function NatToDecimal(n: nat): string
    decreases n
  {
    if n < 10 then [DigitChar(n)] else NatToDecimal(n / 10) + [DigitChar(n % 10)]
  }

  /** Python's `str(n)` for an integer. */
  function IntToDecimal(n: int): string
  {
    if n < 0 then "-" + NatToDecimal(-n) else NatToDecimal(n)
  }

  /** Rendering a natural number gives a numeral whose value is that number. */
  lemma {:induction false} NatToDecimalValue(n: nat)
    ensures forall i :: 0 <= i < |NatToDecimal(n)| ==> IsDigit(NatToDecimal(n)[i])
    ensures IsNumeral(NatToDecimal(n)) && NumeralValue(NatToDecimal(n)) == n
    decreases n
  {
    if n >= 10 {
      NatToDecimalValue(n / 10);
      var s := NatToDecimal(n);
      assert s[..|s| - 1] == NatToDecimal(n / 10);
    }
  }

  /** `int(str(n)) == n` for every integer (the digit limit of `int()` is not modelled). */
  lemma ParseIntRoundTrip(n: int)
    ensures ParseInt(IntToDecimal(n)) == Some(n)
  {
    var s := IntToDecimal(n);
    if n < 0 {
      NatToDecimalValue(-n);
      assert s[1..] == NatToDecimal(-n);
    } else {
      NatToDecimalValue(n);
    }
    assert Strip(s) == s;
  }

  /**
   * `int(s)` raises ValueError when `s` holds a character that is neither
   * white space, a digit, an underscore nor a sign.
   */
  lemma ParseIntRejectsStrayChar(s: string, i: nat)
    requires i < |s|
    requires !IsSpace(s[i]) && !IsDigit(s[i]) && s[i] != '_' && s[i] != '+' && s[i] != '-'
    ensures ParseInt(s).None?
  {
  }
}

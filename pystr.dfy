/** The Python 2 string builtins the front-end relies on: `str.lower`,
    `str.startswith`, `str.split` with a one-character separator and
    `int()` on a header value.  Characters stand for the ASCII bytes the
    names and values are made of, so lower-casing touches ASCII letters
    only and `int()` strips ASCII white space; text outside ASCII is not
    part of this model. */
module PyStr {

  import opened Wrappers

  function LowerChar(c: char): char
  {
    if 'A' <= c <= 'Z' then (c as int + 32) as char else c
  }

  function Lower(s: string): (r: string)
    ensures |r| == |s|
    ensures forall i :: 0 <= i < |s| ==> r[i] == LowerChar(s[i])
  {
    seq(|s|, i requires 0 <= i < |s| => LowerChar(s[i]))
  }

  function UpperChar(c: char): char
  {
    if 'a' <= c <= 'z' then (c as int - 32) as char else c
  }

  predicate IsLetter(c: char)
  {
    'A' <= c <= 'Z' || 'a' <= c <= 'z'
  }

  /** `s.title()`: a letter is upper-cased when it starts a run of letters
      and lower-cased inside one; other characters are kept. */
  function Title(s: string): (r: string)
    ensures |r| == |s|
    ensures forall i :: 0 <= i < |s| ==>
      r[i] == if !IsLetter(s[i]) then s[i]
              else if i > 0 && IsLetter(s[i - 1]) then LowerChar(s[i])
              else UpperChar(s[i])
  {
    seq(|s|, i requires 0 <= i < |s| =>
      if !IsLetter(s[i]) then s[i]
      else if i > 0 && IsLetter(s[i - 1]) then LowerChar(s[i])
      else UpperChar(s[i]))
  }

  predicate StartsWith(s: string, prefix: string)
  {
    |prefix| <= |s| && s[..|prefix|] == prefix
  }

  /** `s.find(c)`, with "not found" reported as `|s|`. */
  function IndexOf(s: string, c: char): (i: nat)
    ensures i <= |s|
    ensures i < |s| ==> s[i] == c
    ensures c !in s[..i]
  {
    if s == [] then 0
    else if s[0] == c then 0
    else
      var j := IndexOf(s[1..], c);
      assert s[..j + 1] == [s[0]] + s[1..][..j];
      j + 1
  }

  lemma IndexOfConcat(x: string, c: char, y: string)
    requires c !in x
    ensures IndexOf(x + y, c) == |x| + IndexOf(y, c)
    decreases |x|
  {
    if x != [] {
      assert (x + y)[1..] == x[1..] + y;
      IndexOfConcat(x[1..], c, y);
    } else {
      assert x + y == y;
    }
  }

  /** The inverse of `Split`: the fields glued back with the separator. */
  function Join(fields: seq<string>, c: char): (s: string)
    requires |fields| >= 1
    ensures fields[0] <= s
    decreases |fields|
  {
    if |fields| == 1 then fields[0] else fields[0] + [c] + Join(fields[1..], c)
  }

  /** `s.split(c)`: every separator cuts, so adjacent separators give empty fields. */
  function Split(s: string, c: char): (fields: seq<string>)
    ensures |fields| >= 1
    ensures forall i :: 0 <= i < |fields| ==> c !in fields[i]
    ensures Join(fields, c) == s
    decreases |s|
  {
    var i := IndexOf(s, c);
    if i == |s| then
      assert s[..i] == s;
      [s]
    else
      var rest := Split(s[i + 1..], c);
      var fields := [s[..i]] + rest;
      assert fields[1..] == rest;
      assert s == s[..i] + [c] + s[i + 1..];
      fields
  }

  /** `s.split(c, 1)`: only the first separator cuts. */
  function SplitOnce(s: string, c: char): (fields: seq<string>)
    ensures 1 <= |fields| <= 2
    ensures c !in fields[0]
    ensures |fields| == 1 <==> c !in s
    ensures |fields| == 1 ==> fields[0] == s
    ensures |fields| == 2 ==> fields[0] + [c] + fields[1] == s
  {
    var i := IndexOf(s, c);
    if i == |s| then
      assert s[..i] == s;
      [s]
    else
      assert s == s[..i] + [c] + s[i + 1..];
      [s[..i], s[i + 1..]]
  }

  /** Splitting what `Join` built gives back the fields, when none holds the separator. */
  lemma {:induction false} SplitJoin(fields: seq<string>, c: char)
    requires |fields| >= 1
    requires forall i :: 0 <= i < |fields| ==> c !in fields[i]
    ensures Split(Join(fields, c), c) == fields
    decreases |fields|
  {
    var s := Join(fields, c);
    if |fields| == 1 {
      IndexOfConcat(fields[0], c, []);
      assert fields[0] + [] == fields[0];
    } else {
      var tail := Join(fields[1..], c);
      assert s == fields[0] + ([c] + tail);
      IndexOfConcat(fields[0], c, [c] + tail);
      var i := |fields[0]|;
      assert IndexOf(s, c) == i;
      assert s[..i] == fields[0];
      assert s[i + 1..] == tail;
      SplitJoin(fields[1..], c);
      assert Split(s, c) == [fields[0]] + fields[1..];
    }
  }

  /** The first field of a split is the text before the first separator. */
  lemma SplitHead(x: string, c: char, y: string)
    requires c !in x
    ensures Split(x + [c] + y, c)[0] == x
  {
    var s := x + [c] + y;
    assert s == x + ([c] + y);
    IndexOfConcat(x, c, [c] + y);
    assert s[..|x|] == x;
  }

  // ----- int() on a header value -----

  /** The characters Python 2's `int()` strips around its argument. */
  predicate IsSpace(c: char)
  {
    c == ' ' || c == '\t' || c == '\n' || c == '\r' || c as int == 11 || c as int == 12
  }

  predicate IsDigit(c: char)
  {
    '0' <= c <= '9'
  }

  function StripLeft(s: string): (r: string)
    ensures r == [] || !IsSpace(r[0])
    ensures |r| <= |s|
    decreases |s|
  {
    if s != [] && IsSpace(s[0]) then StripLeft(s[1..]) else s
  }

  function StripRight(s: string): (r: string)
    ensures r == [] || !IsSpace(r[|r| - 1])
    ensures r <= s
    decreases |s|
  {
    if s != [] && IsSpace(s[|s| - 1]) then StripRight(s[..|s| - 1]) else s
  }

  /** `s.strip()`. */
  function Strip(s: string): (r: string)
    ensures r == [] || (!IsSpace(r[0]) && !IsSpace(r[|r| - 1]))
  {
    StripRight(StripLeft(s))
  }

  function DigitValue(c: char): nat
    requires IsDigit(c)
  {
    c as int - '0' as int
  }

  function DigitsValue(d: string): nat
    requires forall i :: 0 <= i < |d| ==> IsDigit(d[i])
    decreases |d|
  {
    if d == [] then 0 else 10 * DigitsValue(d[..|d| - 1]) + DigitValue(d[|d| - 1])
  }

  predicate AllDigits(d: string)
  {
    forall i :: 0 <= i < |d| ==> IsDigit(d[i])
  }

  /** Python 2 `int(s)` on a byte string: white space around it, an
      optional sign, white space again, then one or more ASCII digits;
      anything else is a ValueError (`None` here). */
  function ParseInt(s: string): (r: Option<int>)
    ensures Strip(s) == [] ==> r.None?
    ensures s != [] && AllDigits(s) ==> r == Some(DigitsValue(s))
  {
    var t := Strip(s);
    if t == [] then None
    else
      var signed := t[0] == '-' || t[0] == '+';
      var digits := if signed then StripLeft(t[1..]) else t;
      if digits == [] || !AllDigits(digits) then None
      else
        var value: int := if t[0] == '-' then 0 - DigitsValue(digits) as int else DigitsValue(digits);
        Some(value)
  }

  /** Leading white space is dropped up to the first other character. */
  lemma {:induction false} StripLeftSpaces(pad: string, d: string)
    requires forall i :: 0 <= i < |pad| ==> IsSpace(pad[i])
    requires d == [] || !IsSpace(d[0])
    ensures StripLeft(pad + d) == d
    decreases |pad|
  {
    if pad == [] {
      assert pad + d == d;
    } else {
      assert (pad + d)[1..] == pad[1..] + d;
      StripLeftSpaces(pad[1..], d);
    }
  }

  /** `str(n)` for a natural number. */
  function Decimal(n: nat): (d: string)
    ensures d != []
    ensures forall i :: 0 <= i < |d| ==> IsDigit(d[i])
    decreases n
  {
    var last := ('0' as int + n % 10) as char;
    if n < 10 then [last] else Decimal(n / 10) + [last]
  }

  lemma {:induction false} DecimalValue(n: nat)
    ensures DigitsValue(Decimal(n)) == n
    decreases n
  {
    var d := Decimal(n);
    if n >= 10 {
      assert d[..|d| - 1] == Decimal(n / 10);
      DecimalValue(n / 10);
    }
  }

  /** `int(str(n)) == n`: the round trip a well-formed Content-Length makes. */
  lemma ParseDecimal(n: nat)
    ensures ParseInt(Decimal(n)) == Some(n)
  {
    DecimalValue(n);
  }

  /** A character that is not white space survives `lstrip`, shifted left
      by the white space dropped. */
  lemma {:induction false} StripLeftKeeps(s: string, i: nat)
    requires i < |s| && !IsSpace(s[i])
    ensures |s| - |StripLeft(s)| <= i
    ensures StripLeft(s)[i - (|s| - |StripLeft(s)|)] == s[i]
    decreases |s|
  {
    if IsSpace(s[0]) {
      StripLeftKeeps(s[1..], i - 1);
    }
  }

  /** A character that is not white space survives `rstrip` in place. */
  lemma {:induction false} StripRightKeeps(s: string, i: nat)
    requires i < |s| && !IsSpace(s[i])
    ensures i < |StripRight(s)| && StripRight(s)[i] == s[i]
    decreases |s|
  {
    if IsSpace(s[|s| - 1]) {
      StripRightKeeps(s[..|s| - 1], i);
    }
  }

  /** `int()` refuses a string holding any character other than white
      space, a sign or a digit: `int('abc')` and `int('5x')` are ValueErrors. */
  lemma NotANumber(s: string, i: nat)
    requires i < |s| && !IsDigit(s[i]) && !IsSpace(s[i]) && s[i] != '+' && s[i] != '-'
    ensures ParseInt(s).None?
  {
    var l := StripLeft(s);
    StripLeftKeeps(s, i);
    var k := i - (|s| - |l|);
    StripRightKeeps(l, k);
    var t := Strip(s);
    assert t[k] == s[i];
    if t[0] == '-' || t[0] == '+' {
      assert k > 0;
      assert t[1..][k - 1] == s[i];
      StripLeftKeeps(t[1..], k - 1);
      var digits := StripLeft(t[1..]);
      assert digits[k - 1 - (|t[1..]| - |digits|)] == s[i];
    } else {
      assert !IsDigit(t[k]);
    }
  }

  /** A string with no white space at either end is its own `strip()`. */
  lemma StripUnpadded(s: string)
    requires s != [] && !IsSpace(s[0]) && !IsSpace(s[|s| - 1])
    ensures Strip(s) == s
  {
    assert StripLeft(s) == s;
  }

  lemma ParseNegative(s: string, d: string)
    requires Strip(s) == s && s != [] && s[0] == '-'
    requires StripLeft(s[1..]) == d && d != [] && AllDigits(d)
    ensures ParseInt(s) == Some(0 - DigitsValue(d))
  {
    var t := Strip(s);
    assert t[0] == '-' && t[1..] == s[1..];
    var value: int := 0 - DigitsValue(d) as int;
    assert ParseInt(s) == Some(value);
  }

  /** A minus sign, any white space, then the digits of `n` read as `-n`. */
  lemma ParseNegativeSpaced(pad: string, n: nat)
    requires forall i :: 0 <= i < |pad| ==> IsSpace(pad[i])
    ensures ParseInt("-" + pad + Decimal(n)) == Some(0 - n)
  {
    var d := Decimal(n);
    var s := "-" + pad + d;
    assert s[0] == '-' && s[|s| - 1] == d[|d| - 1];
    StripUnpadded(s);
    assert s[1..] == pad + d;
    StripLeftSpaces(pad, d);
    DecimalValue(n);
    ParseNegative(s, d);
  }
}

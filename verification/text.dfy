/** The JavaScript string and array primitives the pages rely on, over
    `string` (a sequence of characters): `join`, `split` on one character,
    `trim`, `padStart`, `replace` (first match and global), and the decimal
    rendering of integers that template literals perform. */
module Text {

  import opened Base

  // ---------------------------------------------------------------------
  // join and split
  // ---------------------------------------------------------------------

  /** `parts.join(sep)`. */
  function Join(parts: seq<string>, sep: string): string
    decreases |parts|
  {
    if |parts| == 0 then ""
    else if |parts| == 1 then parts[0]
    else parts[0] + sep + Join(parts[1..], sep)
  }

  lemma {:induction false} JoinAppend(a: seq<string>, b: seq<string>, sep: string)
    requires |a| > 0 && |b| > 0
    ensures Join(a + b, sep) == Join(a, sep) + sep + Join(b, sep)
    decreases |a|
  {
    if |a| == 1 {
      assert (a + b)[1..] == b;
    } else {
      assert (a + b)[1..] == a[1..] + b;
      JoinAppend(a[1..], b, sep);
    }
  }

  /** Position of the first `c` in `s`, or `|s|` when there is none. */
  function IndexOf(s: string, c: char): (i: nat)
    ensures i <= |s|
    ensures i < |s| ==> s[i] == c
    ensures c !in s[..i]
  {
    if |s| == 0 then 0
    else if s[0] == c then 0
    else
      var j := IndexOf(s[1..], c);
      assert s[..j + 1] == [s[0]] + s[1..][..j];
      1 + j
  }

  lemma IndexOfAfter(a: string, c: char, b: string)
    requires c !in a
    ensures IndexOf(a + [c] + b, c) == |a|
  {
    var s := a + [c] + b;
    assert s[..|a|] == a;
    assert s[|a|] == c;
  }

  /** `s.split(sep)` for a one-character separator: the pieces between
      consecutive separators, always at least one (the empty string splits
      into `[""]`). */
  function Split(s: string, sep: char): (parts: seq<string>)
    ensures |parts| >= 1
    ensures forall k :: 0 <= k < |parts| ==> sep !in parts[k]
    ensures Join(parts, [sep]) == s
    decreases |s|
  {
    var i := IndexOf(s, sep);
    if i == |s| then
      assert s[..i] == s;
      [s]
    else
      var rest := Split(s[i + 1..], sep);
      assert ([s[..i]] + rest)[1..] == rest;
      assert s == s[..i] + [sep] + s[i + 1..];
      [s[..i]] + rest
  }

  /** Splitting undoes joining: pieces free of the separator are recovered
      exactly, so `Split` is the only separator-free decomposition of `s`. */
  lemma {:induction false} SplitJoin(parts: seq<string>, sep: char)
    requires |parts| >= 1
    requires forall k :: 0 <= k < |parts| ==> sep !in parts[k]
    ensures Split(Join(parts, [sep]), sep) == parts
    decreases |parts|
  {
    var s := Join(parts, [sep]);
    if |parts| > 1 {
      var rest := Join(parts[1..], [sep]);
      assert s == parts[0] + [sep] + rest;
      IndexOfAfter(parts[0], sep, rest);
      assert s[..|parts[0]|] == parts[0];
      assert s[|parts[0]| + 1..] == rest;
      SplitJoin(parts[1..], sep);
      assert parts == [parts[0]] + parts[1..];
    }
  }

  /** Concatenation of a sequence of sequences. */
  function Flatten<T>(xss: seq<seq<T>>): seq<T>
  {
    if |xss| == 0 then [] else xss[0] + Flatten(xss[1..])
  }

  lemma {:induction false} FlattenAppend<T>(xss: seq<seq<T>>, yss: seq<seq<T>>)
    ensures Flatten(xss + yss) == Flatten(xss) + Flatten(yss)
    decreases |xss|
  {
    if |xss| == 0 {
      assert xss + yss == yss;
    } else {
      assert (xss + yss)[1..] == xss[1..] + yss;
      FlattenAppend(xss[1..], yss);
    }
  }

  /** When every block holds four items, item `j` of block `i` sits at
      position `4 * i + j` of the flattening. */
  lemma {:induction false} FlattenQuads<T>(xss: seq<seq<T>>, i: nat, j: nat)
    requires forall k :: 0 <= k < |xss| ==> |xss[k]| == 4
    requires i < |xss| && j < 4
    ensures |Flatten(xss)| == 4 * |xss|
    ensures Flatten(xss)[4 * i + j] == xss[i][j]
    decreases i
  {
    FlattenQuadsLength(xss);
    var rest := xss[1..];
    assert Flatten(xss) == xss[0] + Flatten(rest);
    if i > 0 {
      FlattenQuads(rest, i - 1, j);
      assert rest[i - 1] == xss[i];
    }
  }

  lemma {:induction false} FlattenQuadsLength<T>(xss: seq<seq<T>>)
    requires forall k :: 0 <= k < |xss| ==> |xss[k]| == 4
    ensures |Flatten(xss)| == 4 * |xss|
    decreases |xss|
  {
    if |xss| > 0 {
      FlattenQuadsLength(xss[1..]);
    }
  }

  /** Each block joined on its own. */
  function JoinEach(xss: seq<seq<string>>, sep: string): (r: seq<string>)
    ensures |r| == |xss|
    ensures forall i :: 0 <= i < |xss| ==> r[i] == Join(xss[i], sep)
  {
    if |xss| == 0 then [] else [Join(xss[0], sep)] + JoinEach(xss[1..], sep)
  }

  /** Joining joined blocks with the same separator is joining their
      concatenation. */
  lemma {:induction false} JoinFlatten(xss: seq<seq<string>>, sep: string)
    requires forall k :: 0 <= k < |xss| ==> |xss[k]| > 0
    ensures Join(JoinEach(xss, sep), sep) == Join(Flatten(xss), sep)
    decreases |xss|
  {
    if |xss| == 1 {
      assert Flatten(xss) == xss[0] + Flatten(xss[1..]);
      assert Flatten(xss[1..]) == [];
      assert Flatten(xss) == xss[0];
    } else if |xss| > 1 {
      JoinFlatten(xss[1..], sep);
      var je := JoinEach(xss, sep);
      assert je[1..] == JoinEach(xss[1..], sep);
      assert Flatten(xss[1..]) == xss[1] + Flatten(xss[2..]);
      JoinAppend(xss[0], Flatten(xss[1..]), sep);
    }
  }

  // ---------------------------------------------------------------------
  // trim
  // ---------------------------------------------------------------------

  /** The characters `String.prototype.trim` removes: the WhiteSpace and
      LineTerminator productions of ECMAScript. */
  predicate IsSpace(c: char)
  {
    var n := c as int;
    n == 0x09 || n == 0x0A || n == 0x0B || n == 0x0C || n == 0x0D || n == 0x20
    || n == 0xA0 || n == 0x1680 || (0x2000 <= n <= 0x200A) || n == 0x2028
    || n == 0x2029 || n == 0x202F || n == 0x205F || n == 0x3000 || n == 0xFEFF
  }

  /** A string made of white space only (the empty string included). */
  predicate IsBlank(s: string)
  {
    forall k :: 0 <= k < |s| ==> IsSpace(s[k])
  }

  /** Drops the leading white space: the result is the suffix of `s` that
      starts at its first non-space character. */
  function TrimStart(s: string): (r: string)
    ensures |r| <= |s| && r == s[|s| - |r|..]
    ensures forall k :: 0 <= k < |s| - |r| ==> IsSpace(s[k])
    ensures |r| > 0 ==> !IsSpace(r[0])
  {
    if |s| > 0 && IsSpace(s[0]) then TrimStart(s[1..]) else s
  }

  /** Drops the trailing white space: the result is the prefix of `s` that
      ends at its last non-space character. */
  function TrimEnd(s: string): (r: string)
    ensures |r| <= |s| && r == s[..|r|]
    ensures forall k :: |r| <= k < |s| ==> IsSpace(s[k])
    ensures |r| > 0 ==> !IsSpace(r[|r| - 1])
  {
    if |s| > 0 && IsSpace(s[|s| - 1]) then TrimEnd(s[..|s| - 1]) else s
  }

  /** `s.trim()`. */
  function Trim(s: string): string
  {
    TrimEnd(TrimStart(s))
  }

  /** `s.trim() !== ''` holds exactly when `s` has a non-space character. */
  lemma TrimEmptyIffBlank(s: string)
    ensures Trim(s) == "" <==> IsBlank(s)
  {
  }

  // ---------------------------------------------------------------------
  // padStart and decimal rendering
  // ---------------------------------------------------------------------

  function Repeat(c: char, n: nat): (r: string)
    ensures |r| == n
    ensures forall k :: 0 <= k < n ==> r[k] == c
  {
    if n == 0 then "" else [c] + Repeat(c, n - 1)
  }

  /** `s.padStart(width, fill)` for a one-character fill. */
  function PadStart(s: string, width: nat, fill: char): (r: string)
    ensures |r| == if |s| >= width then |s| else width
    ensures r[|r| - |s|..] == s
    ensures forall k :: 0 <= k < |r| - |s| ==> r[k] == fill
  {
    if |s| >= width then s else Repeat(fill, width - |s|) + s
  }

  predicate IsDigit(c: char)
  {
    '0' <= c <= '9'
  }

  predicate AllDigits(s: string)
  {
    forall k :: 0 <= k < |s| ==> IsDigit(s[k])
  }

  function DigitValue(c: char): nat
    requires IsDigit(c)
  {
    c as int - '0' as int
  }

  function DigitChar(d: nat): (c: char)
    requires d < 10
    ensures IsDigit(c) && DigitValue(c) == d
  {
    (48 + d) as char
  }

  /** The number a string of decimal digits denotes. */
  function DigitsValue(s: string): nat
    requires AllDigits(s)
  {
    if |s| == 0 then 0 else DigitsValue(s[..|s| - 1]) * 10 + DigitValue(s[|s| - 1])
  }

  /** `n.toString()` for a non-negative integer: canonical decimal digits,
      one digit per power of ten the number reaches. */
  function NatToString(n: nat): (r: string)
    ensures |r| >= 1 && AllDigits(r)
    ensures |r| > 1 ==> r[0] != '0'
    ensures |r| == 1 <==> n < 10
    ensures n < 100 ==> |r| <= 2
    ensures n < 1000 ==> |r| <= 3
  {
    if n < 10 then [DigitChar(n)] else NatToString(n / 10) + [DigitChar(n % 10)]
  }

  lemma {:induction false} NatToStringValue(n: nat)
    ensures DigitsValue(NatToString(n)) == n
  {
    if n >= 10 {
      var s := NatToString(n);
      assert s[..|s| - 1] == NatToString(n / 10);
      NatToStringValue(n / 10);
    }
  }

  /** Leading zeros do not change the value of a digit string. */
  lemma {:induction false} LeadingZerosValue(k: nat, s: string)
    requires AllDigits(s)
    ensures AllDigits(Repeat('0', k) + s)
    ensures DigitsValue(Repeat('0', k) + s) == DigitsValue(s)
    decreases |s|
  {
    var z := Repeat('0', k);
    assert AllDigits(z + s) by {
      forall i | 0 <= i < |z + s|
        ensures IsDigit((z + s)[i])
      {
        if i >= |z| { assert (z + s)[i] == s[i - |z|]; }
      }
    }
    if |s| == 0 {
      assert z + s == z;
      ZerosValue(k);
    } else {
      assert (z + s)[..|z + s| - 1] == z + s[..|s| - 1];
      LeadingZerosValue(k, s[..|s| - 1]);
    }
  }

  lemma {:induction false} ZerosValue(k: nat)
    ensures AllDigits(Repeat('0', k))
    ensures DigitsValue(Repeat('0', k)) == 0
  {
    if k > 0 {
      var z := Repeat('0', k);
      assert z[..k - 1] == Repeat('0', k - 1);
      ZerosValue(k - 1);
    }
  }

  /** A number rendered and zero-padded reads back as the same number. */
  lemma PaddedValue(n: nat, width: nat)
    ensures AllDigits(PadStart(NatToString(n), width, '0'))
    ensures DigitsValue(PadStart(NatToString(n), width, '0')) == n
  {
    var s := NatToString(n);
    NatToStringValue(n);
    if |s| < width {
      LeadingZerosValue(width - |s|, s);
    }
  }

  /** Reads a non-empty digit string as a number; anything else fails. */
  function ParseNat(s: string): Option<nat>
  {
    if |s| > 0 && AllDigits(s) then Some(DigitsValue(s)) else None
  }

  /** `i.toString()` for any integer. */
  function IntToString(i: int): string
  {
    if i < 0 then "-" + NatToString(-i) else NatToString(i)
  }

  /** Reads an optional minus sign followed by digits. */
  function ParseInt(s: string): Option<int>
  {
    if |s| > 0 && s[0] == '-' then
      match ParseNat(s[1..])
      case Some(n) => Some(0 - n as int)
      case None => None
    else
      match ParseNat(s)
      case Some(n) => Some(n)
      case None => None
  }

  /** A digit string holds no sign, comma, colon or line break. */
  lemma DigitsExclude(s: string)
    requires AllDigits(s)
    ensures '-' !in s && ',' !in s && ':' !in s && '\n' !in s
  {
    forall k | 0 <= k < |s|
      ensures s[k] != '-' && s[k] != ',' && s[k] != ':' && s[k] != '\n'
    {
      assert IsDigit(s[k]);
    }
  }

  lemma IntToStringRoundTrip(i: int)
    ensures ParseInt(IntToString(i)) == Some(i)
    ensures ',' !in IntToString(i) && '\n' !in IntToString(i)
  {
    var digits := NatToString(if i < 0 then -i else i);
    DigitsExclude(digits);
    NatToStringValue(if i < 0 then -i else i);
    if i < 0 {
      var s := IntToString(i);
      assert s == "-" + digits;
      assert s[1..] == digits;
      assert ParseNat(s[1..]) == Some(-i);
    } else {
      assert IntToString(i) == digits;
      assert digits[0] != '-';
      assert ParseNat(digits) == Some(i);
    }
  }

  // ---------------------------------------------------------------------
  // replace
  // ---------------------------------------------------------------------

  /** `s.replace(/c/g, rep)`: every `c` replaced by `rep`. */
  function ReplaceAll(s: string, c: char, rep: string): (r: string)
    ensures c !in rep ==> c !in r
    ensures c !in s ==> r == s
  {
    if |s| == 0 then ""
    else (if s[0] == c then rep else [s[0]]) + ReplaceAll(s[1..], c, rep)
  }

  lemma {:induction false} ReplaceAllAppend(a: string, b: string, c: char, rep: string)
    ensures ReplaceAll(a + b, c, rep) == ReplaceAll(a, c, rep) + ReplaceAll(b, c, rep)
    decreases |a|
  {
    if |a| == 0 {
      assert a + b == b;
    } else {
      assert (a + b)[1..] == a[1..] + b;
      ReplaceAllAppend(a[1..], b, c, rep);
    }
  }

  /** A character absent from the text and from the replacement is absent
      from the result. */
  lemma {:induction false} ReplaceAllKeepsAbsent(s: string, c: char, rep: string, d: char)
    requires d !in s && d !in rep
    ensures d !in ReplaceAll(s, c, rep)
    decreases |s|
  {
    if |s| > 0 {
      assert s[0] != d;
      assert d !in s[1..];
      ReplaceAllKeepsAbsent(s[1..], c, rep, d);
    }
  }

  /** Replacing one character by one character keeps the length and
      changes exactly the positions that held `c`. */
  lemma {:induction false} ReplaceCharPointwise(s: string, c: char, d: char)
    ensures |ReplaceAll(s, c, [d])| == |s|
    ensures forall k :: 0 <= k < |s| ==>
      ReplaceAll(s, c, [d])[k] == (if s[k] == c then d else s[k])
  {
    if |s| > 0 {
      ReplaceCharPointwise(s[1..], c, d);
    }
  }

  /** `s.replace(c, d)` with a string pattern: only the first `c` changes. */
  function ReplaceFirst(s: string, c: char, d: char): string
  {
    var i := IndexOf(s, c);
    if i == |s| then s else s[..i] + [d] + s[i + 1..]
  }

  lemma ReplaceFirstAfter(a: string, c: char, d: char, b: string)
    requires c !in a
    ensures ReplaceFirst(a + [c] + b, c, d) == a + [d] + b
  {
    IndexOfAfter(a, c, b);
    var s := a + [c] + b;
    assert s[..|a|] == a;
    assert s[|a| + 1..] == b;
  }
}

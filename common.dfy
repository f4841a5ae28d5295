/** Shared vocabulary: bytes, optional values, ASCII case folding, decimal text and
    the subset of Python's int() parsing that the backup files rely on. */
module Common {

  newtype byte = x: int | 0 <= x < 256

  datatype Option<+T> = None | Some(value: T)

  /** The two generations of the program: the `albackup` package, and the earlier
      stand-alone scripts `dump.py` and `restore.py` at the top of the repository. */
  datatype Variant = Package | Script

  const NEWLINE: byte := 10

  /** The three bytes of the end-of-data sentinel `EOF`. */
  const EOF_MARK: seq<byte> := [69, 79, 70]

  function Min(a: int, b: int): int { if a <= b then a else b }

  // ---------------------------------------------------------------------------
  // Case folding (Python's str.lower restricted to ASCII)

  function LowerChar(c: char): char
  {
    if 'A' <= c <= 'Z' then (c as int + 32) as char else c
  }

  function Lower(s: string): (r: string)
    ensures |r| == |s|
  {
    seq(|s|, i requires 0 <= i < |s| => LowerChar(s[i]))
  }

  function Concat(parts: seq<string>): string
  {
    if parts == [] then [] else parts[0] + Concat(parts[1..])
  }

  lemma LowerIdempotent(s: string)
    ensures Lower(Lower(s)) == Lower(s)
  {
    assert forall i :: 0 <= i < |s| ==> Lower(Lower(s))[i] == Lower(s)[i];
  }

  // ---------------------------------------------------------------------------
  // Text of strings as bytes (the backup files are written in Python 2 `str`)

  function Ascii(s: string): seq<byte>
    requires forall i :: 0 <= i < |s| ==> s[i] as int < 256
  {
    seq(|s|, i requires 0 <= i < |s| => s[i] as int as byte)
  }

  // ---------------------------------------------------------------------------
  // Decimal rendering, as `'{}'.format(n)` does for a non-negative int

  predicate IsDigit(b: byte) { 48 <= b <= 57 }

  predicate AllDigits(s: seq<byte>) { forall i :: 0 <= i < |s| ==> IsDigit(s[i]) }

  function Decimal(n: nat): (r: seq<byte>)
    decreases n
  {
    if n < 10 then [(48 + n) as byte] else Decimal(n / 10) + [(48 + n % 10) as byte]
  }

  /** The number written by a sequence of decimal digits, most significant first. */
  function DigitsValue(s: seq<byte>): nat
    requires AllDigits(s)
  {
    if s == [] then 0 else DigitsValue(s[..|s| - 1]) * 10 + (s[|s| - 1] as int - 48)
  }

  /** Rendering a number in decimal gives a non-empty run of digits that reads back as it. */
  lemma {:induction false} DecimalReadsBack(n: nat)
    ensures |Decimal(n)| > 0 && AllDigits(Decimal(n))
    ensures DigitsValue(Decimal(n)) == n
  {
    if n >= 10 {
      DecimalReadsBack(n / 10);
      var d := Decimal(n);
      assert d[..|d| - 1] == Decimal(n / 10);
    }
  }

  // ---------------------------------------------------------------------------
  // Python 2's int() applied to a byte string: surrounding white space is ignored,
  // an optional sign is accepted, white space after the sign is skipped too, and
  // at least one decimal digit must follow.

  predicate IsSpace(b: byte) { b == 32 || 9 <= b <= 13 }

  function StripLeft(s: seq<byte>): (r: seq<byte>)
    ensures |r| <= |s|
  {
    if |s| > 0 && IsSpace(s[0]) then StripLeft(s[1..]) else s
  }

  function StripRight(s: seq<byte>): (r: seq<byte>)
    ensures |r| <= |s|
  {
    if |s| > 0 && IsSpace(s[|s| - 1]) then StripRight(s[..|s| - 1]) else s
  }

  function ParseUnsigned(s: seq<byte>): Option<nat>
  {
    if |s| > 0 && AllDigits(s) then Some(DigitsValue(s)) else None
  }

  function ParseInt(line: seq<byte>): (r: Option<int>)
  {
    var t := StripRight(StripLeft(line));
    if |t| > 0 && (t[0] == 43 || t[0] == 45) then
      match ParseUnsigned(StripLeft(t[1..]))
      case None => None
      case Some(v) => var x: int := if t[0] == 45 then 0 - (v as int) else v as int; Some(x)
    else
      match ParseUnsigned(t)
      case None => None
      case Some(v) => var x: int := v; Some(x)
  }

  /** White space may follow the sign: `int("+ 3\n")` is 3 and `int(" - 12 ")` is -12. */
  lemma SpaceAfterSign()
    ensures ParseInt([43, 32, 51, NEWLINE]) == Some(3)
    ensures ParseInt([32, 45, 32, 49, 50, 32]) == Some(-12)
    ensures ParseInt([43, 32]) == None
  {
    var a: seq<byte> := [43, 32, 51, NEWLINE];
    assert StripLeft(a) == a;
    assert StripRight(a) == a[..3] by { assert StripRight(a[..3]) == a[..3]; }
    assert a[..3][1..] == [32, 51] && StripLeft([32, 51]) == [51];
    assert DigitsValue([51]) == 3 by { assert [51][..0] == []; }
    var b: seq<byte> := [32, 45, 32, 49, 50, 32];
    assert StripLeft(b) == b[1..];
    assert StripRight(b[1..]) == b[1..5] by { assert StripRight(b[1..5]) == b[1..5]; }
    assert b[1..5][1..] == [32, 49, 50] && StripLeft([32, 49, 50]) == [49, 50];
    assert DigitsValue([49, 50]) == 12 by { assert [49, 50][..1] == [49] && [49][..0] == []; }
    var c: seq<byte> := [43, 32];
    assert StripLeft(c) == c;
    assert StripRight(c) == [43] by { assert c[..1] == [43]; }
    assert [43][1..] == [];
  }

  /** A length line as the encoder writes it parses back to the length. */
  lemma LengthLineParses(n: nat)
    ensures ParseInt(Decimal(n) + [NEWLINE]) == Some(n)
  {
    DecimalReadsBack(n);
    var d := Decimal(n);
    assert !IsSpace(d[0]);
    assert StripLeft(d + [NEWLINE]) == d + [NEWLINE];
    assert (d + [NEWLINE])[..|d|] == d;
    assert StripRight(d + [NEWLINE]) == StripRight(d);
    assert !IsSpace(d[|d| - 1]);
    assert StripRight(d) == d;
  }
}

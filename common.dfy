/** Shared building blocks: optional values and error results, the loosely typed
    PHP scalar, ASCII case mapping, substring search and decimal / hexadecimal text. */
module Common {

  datatype Option<T> = None | Some(value: T)

  function GetOr<T>(o: Option<T>, default: T): T
  {
    match o
    case Some(v) => v
    case None => default
  }

  /** An operation that either yields a value or throws an exception carrying a message. */
  datatype Result<T> = Ok(value: T) | Err(msg: string)

  /** The PHP scalars that request data, rule values and table cells take in this model. */
  datatype Value = Null | Bool(b: bool) | Int(i: int) | Str(s: string)

  /** PHP's `empty()` on a scalar: null, false, 0, "" and "0" are empty. */
  predicate IsEmpty(v: Value)
  {
    v == Null || v == Bool(false) || v == Int(0) || v == Str("") || v == Str("0")
  }

  /** PHP's conversion of a scalar to a string. */
  function ToText(v: Value): string
  {
    match v
    case Null => ""
    case Bool(b) => if b then "1" else ""
    case Int(i) => IntToString(i)
    case Str(s) => s
  }

  // ---------------------------------------------------------------- ASCII case

  function LowerChar(c: char): char
  {
    if 'A' <= c <= 'Z' then (c as int + 32) as char else c
  }

  function UpperChar(c: char): char
  {
    if 'a' <= c <= 'z' then (c as int - 32) as char else c
  }

  /** `strtolower` (ASCII). */
  function Lower(s: string): (r: string)
    ensures |r| == |s|
    ensures forall i :: 0 <= i < |s| ==> r[i] == LowerChar(s[i])
  {
    seq(|s|, i requires 0 <= i < |s| => LowerChar(s[i]))
  }

  /** `strtoupper` (ASCII). */
  function Upper(s: string): (r: string)
    ensures |r| == |s|
    ensures forall i :: 0 <= i < |s| ==> r[i] == UpperChar(s[i])
  {
    seq(|s|, i requires 0 <= i < |s| => UpperChar(s[i]))
  }

  /** `ucfirst`: the first character upper-cased, the rest untouched. */
  function UcFirst(s: string): (r: string)
    ensures |r| == |s|
  {
    if s == "" then "" else [UpperChar(s[0])] + s[1..]
  }

  predicate IsLowerCase(s: string)
  {
    forall i :: 0 <= i < |s| ==> !('A' <= s[i] <= 'Z')
  }

  lemma LowerIsLowerCase(s: string)
    ensures IsLowerCase(Lower(s))
    ensures Lower(Lower(s)) == Lower(s)
  {
  }

  // ---------------------------------------------------------------- substrings

  /** `p` occurs in `s` at position `k`. */
  predicate OccursAt(s: string, p: string, k: int)
  {
    0 <= k && k + |p| <= |s| && s[k..k + |p|] == p
  }

  /** `strpos($s, $p) !== false`. */
  predicate Contains(s: string, p: string)
  {
    exists k :: 0 <= k <= |s| - |p| && OccursAt(s, p, k)
  }

  /** `stripos($s, $p) !== false`: substring search under ASCII case folding. */
  predicate ContainsCI(s: string, p: string)
  {
    Contains(Lower(s), Lower(p))
  }

  /** The foreach-with-early-return over a list of dangerous fragments:
      true as soon as one of `patterns` occurs in `s`, ignoring ASCII case. */
  function AnyContainsCI(s: string, patterns: seq<string>): (r: bool)
    ensures r <==> exists i :: 0 <= i < |patterns| && ContainsCI(s, patterns[i])
  {
    if patterns == [] then false
    else if ContainsCI(s, patterns[0]) then true
    else
      var rest := AnyContainsCI(s, patterns[1..]);
      assert forall i :: 1 <= i < |patterns| ==> patterns[i] == patterns[1..][i - 1];
      rest
  }

  /** A witness position is enough to show a case-insensitive occurrence. */
  lemma ContainsCIAt(s: string, p: string, k: nat)
    requires k + |p| <= |s|
    requires Lower(s)[k..k + |p|] == Lower(p)
    ensures ContainsCI(s, p)
  {
    assert OccursAt(Lower(s), Lower(p), k);
  }

  /** An exact occurrence is also a case-insensitive one. */
  lemma ContainsCIAtExact(s: string, p: string, k: nat)
    requires OccursAt(s, p, k)
    ensures ContainsCI(s, p)
  {
    assert Lower(s)[k..k + |p|] == Lower(p) by {
      forall i | 0 <= i < |p| ensures Lower(s)[k..k + |p|][i] == Lower(p)[i] {
        assert s[k..k + |p|][i] == p[i];
      }
    }
    ContainsCIAt(s, p, k);
  }

  /** A fragment written between two texts occurs in their concatenation. */
  lemma ContainsCIInside(a: string, p: string, b: string)
    ensures ContainsCI(a + p + b, p)
  {
    var s := a + p + b;
    assert s[|a|..|a| + |p|] == p;
    ContainsCIAtExact(s, p, |a|);
  }

  /** A fragment needing a character that `s` lacks does not occur in `s`. */
  lemma NotContainsWithout(s: string, p: string, j: nat)
    requires j < |p| && p[j] !in s
    ensures !Contains(s, p)
  {
    forall k | 0 <= k <= |s| - |p|
      ensures !OccursAt(s, p, k)
    {
      assert s[k..k + |p|][j] == s[k + j];
      assert s[k + j] in s;
    }
  }

  /** A fragment needing a character that `s` lacks in both cases does not occur in `s`,
      even ignoring case. */
  lemma NotContainsCIWithout(s: string, p: string, j: nat)
    requires j < |p|
    requires LowerChar(p[j]) !in s && UpperChar(LowerChar(p[j])) !in s
    ensures !ContainsCI(s, p)
  {
    var c := LowerChar(p[j]);
    forall i | 0 <= i < |s| ensures Lower(s)[i] != c {
      assert s[i] in s;
    }
    NotContainsWithout(Lower(s), Lower(p), j);
  }

  /** `implode($sep, $items)`. */
  function Join(items: seq<string>, sep: string): string
  {
    if items == [] then ""
    else if |items| == 1 then items[0]
    else items[0] + sep + Join(items[1..], sep)
  }

  // ---------------------------------------------------------------- decimal text

  predicate IsDigit(c: char)
  {
    '0' <= c <= '9'
  }

  function DigitChar(d: nat): (c: char)
    requires d < 10
    ensures IsDigit(c)
  {
    (48 + d) as char
  }

  /** The value of a decimal digit. */
  function DigitValue(c: char): (d: nat)
    requires IsDigit(c)
    ensures d < 10 && DigitChar(d) == c
  {
    c as int - 48
  }

  /** Decimal digits of a natural number, most significant first, no leading zero. */
  function NatToString(n: nat): (s: string)
    ensures |s| >= 1
    ensures forall i :: 0 <= i < |s| ==> IsDigit(s[i])
    ensures |s| > 1 ==> s[0] != '0'
    decreases n
  {
    if n < 10 then [DigitChar(n)] else NatToString(n / 10) + [DigitChar(n % 10)]
  }

  function IntToString(i: int): string
  {
    if i < 0 then "-" + NatToString(-i) else NatToString(i)
  }

  /** Distinct numbers have distinct decimal forms, so ids written as text stay distinct. */
  lemma {:induction false} NatToStringInjective(m: nat, n: nat)
    requires NatToString(m) == NatToString(n)
    ensures m == n
    decreases m
  {
    var sm, sn := NatToString(m), NatToString(n);
    if m < 10 && n < 10 {
      assert DigitChar(m) == sm[0] == sn[0] == DigitChar(n);
    } else if m < 10 || n < 10 {
      assert false;
    } else {
      var pm, pn := NatToString(m / 10), NatToString(n / 10);
      assert sm == pm + [DigitChar(m % 10)];
      assert sn == pn + [DigitChar(n % 10)];
      assert pm == sm[..|sm| - 1] == sn[..|sn| - 1] == pn;
      NatToStringInjective(m / 10, n / 10);
      assert DigitChar(m % 10) == sm[|sm| - 1] == sn[|sn| - 1] == DigitChar(n % 10);
    }
  }

  /** The text `NatToString` produces: digits only, at least one, no leading zero. */
  predicate IsCanonicalDecimal(s: string)
  {
    |s| >= 1 && (forall i :: 0 <= i < |s| ==> IsDigit(s[i])) && (|s| > 1 ==> s[0] != '0')
  }

  /** The number a string of decimal digits denotes, most significant digit first. */
  function DecimalValue(s: string): nat
    requires forall i :: 0 <= i < |s| ==> IsDigit(s[i])
  {
    if s == [] then 0 else 10 * DecimalValue(s[..|s| - 1]) + DigitValue(s[|s| - 1])
  }

  /** The id in a key column compared with the text of a query parameter: canonical decimal
      text denotes its number, any other text denotes no id. */
  function ParseNat(s: string): (r: Option<nat>)
    ensures r.Some? <==> IsCanonicalDecimal(s)
  {
    if IsCanonicalDecimal(s) then Some(DecimalValue(s)) else None
  }

  lemma {:induction false} DecimalValueOfNatToString(n: nat)
    ensures DecimalValue(NatToString(n)) == n
    decreases n
  {
    var s := NatToString(n);
    if n >= 10 {
      DecimalValueOfNatToString(n / 10);
      assert s[..|s| - 1] == NatToString(n / 10);
    }
  }

  /** Canonical text starting with a non-zero digit denotes a positive number. */
  lemma {:induction false} DecimalValuePositive(s: string)
    requires |s| >= 1 && (forall i :: 0 <= i < |s| ==> IsDigit(s[i])) && s[0] != '0'
    ensures DecimalValue(s) > 0
    decreases |s|
  {
    if |s| > 1 {
      DecimalValuePositive(s[..|s| - 1]);
    }
  }

  lemma {:induction false} NatToStringOfDecimalValue(s: string)
    requires IsCanonicalDecimal(s)
    ensures NatToString(DecimalValue(s)) == s
    decreases |s|
  {
    if |s| > 1 {
      var p := s[..|s| - 1];
      DecimalValuePositive(p);
      NatToStringOfDecimalValue(p);
      var n := DecimalValue(s);
      assert n / 10 == DecimalValue(p) && n % 10 == DigitValue(s[|s| - 1]);
      assert s == p + [s[|s| - 1]];
    }
  }

  /** Decimal text and numbers correspond one to one. */
  lemma ParseNatRoundTrip(n: nat, s: string)
    ensures ParseNat(NatToString(n)) == Some(n)
    ensures ParseNat(s).Some? ==> NatToString(ParseNat(s).value) == s
  {
    DecimalValueOfNatToString(n);
    if ParseNat(s).Some? {
      NatToStringOfDecimalValue(s);
    }
  }

  // ---------------------------------------------------------------- hexadecimal

  predicate IsLowerHex(c: char)
  {
    '0' <= c <= '9' || 'a' <= c <= 'f'
  }

  function HexDigit(d: nat): (c: char)
    requires d < 16
    ensures IsLowerHex(c)
  {
    if d < 10 then (48 + d) as char else (87 + d) as char
  }

  /** `bin2hex`: two lower-case hexadecimal digits per byte. */
  function HexEncode(bytes: seq<bv8>): (h: string)
    ensures |h| == 2 * |bytes|
    ensures forall i :: 0 <= i < |h| ==> IsLowerHex(h[i])
  {
    if bytes == [] then ""
    else
      [HexDigit(High(bytes[0])), HexDigit(Low(bytes[0]))] + HexEncode(bytes[1..])
  }

  /** The high and the low four bits of a byte. */
  function High(b: bv8): (d: nat)
    ensures d < 16
  {
    (b as nat) / 16
  }

  function Low(b: bv8): (d: nat)
    ensures d < 16
  {
    (b as nat) % 16
  }

  lemma HalvesInjective(x: bv8, y: bv8)
    requires High(x) == High(y) && Low(x) == Low(y)
    ensures x == y
  {
    assert x as nat == 16 * High(x) + Low(x);
    assert y as nat == 16 * High(y) + Low(y);
  }

  lemma HexDigitInjective(x: nat, y: nat)
    requires x < 16 && y < 16 && HexDigit(x) == HexDigit(y)
    ensures x == y
  {
  }

  lemma HexEncodeHeads(a: seq<bv8>, b: seq<bv8>)
    requires a != [] && b != [] && HexEncode(a) == HexEncode(b)
    ensures a[0] == b[0] && HexEncode(a[1..]) == HexEncode(b[1..])
  {
    var ha, hb := HexEncode(a), HexEncode(b);
    assert ha[0] == HexDigit(High(a[0])) && hb[0] == HexDigit(High(b[0]));
    assert ha[1] == HexDigit(Low(a[0])) && hb[1] == HexDigit(Low(b[0]));
    HexDigitInjective(High(a[0]), High(b[0]));
    HexDigitInjective(Low(a[0]), Low(b[0]));
    HalvesInjective(a[0], b[0]);
    assert ha[2..] == HexEncode(a[1..]) && hb[2..] == HexEncode(b[1..]);
  }

  /** Different bytes give different text. */
  lemma {:induction false} HexEncodeInjective(a: seq<bv8>, b: seq<bv8>)
    requires HexEncode(a) == HexEncode(b)
    ensures a == b
    decreases |a|
  {
    assert |a| == |b|;
    if a != [] {
      HexEncodeHeads(a, b);
      HexEncodeInjective(a[1..], b[1..]);
      assert a == [a[0]] + a[1..];
      assert b == [b[0]] + b[1..];
    }
  }
}

/** The `od_pair` label stamped on every path row: the origin zone and the
    destination zone as Python's `str` renders them, joined by an underscore. */
module OdPair {
  import opened Tables

  predicate IsDigit(c: char) {
    '0' <= c <= '9'
  }

  function DigitChar(v: nat): (c: char)
    requires v < 10
    ensures IsDigit(c)
  {
    (48 + v) as char
  }

  function DigitValue(c: char): nat {
    if IsDigit(c) then (c as int - 48) as nat else 0
  }

  /** Decimal digits of a natural number, most significant first. */
  function NatToString(n: nat): (s: string)
    ensures |s| > 0
    ensures forall k :: 0 <= k < |s| ==> IsDigit(s[k])
  {
    if n < 10 then [DigitChar(n)] else NatToString(n / 10) + [DigitChar(n % 10)]
  }

  /** The number a digit string denotes. */
  function ParseNat(s: string): nat {
    if |s| == 0 then 0 else ParseNat(s[..|s| - 1]) * 10 + DigitValue(s[|s| - 1])
  }

  lemma {:induction false} NatRoundTrip(n: nat)
    ensures ParseNat(NatToString(n)) == n
  {
    if n >= 10 {
      var s := NatToString(n);
      assert s[..|s| - 1] == NatToString(n / 10);
      NatRoundTrip(n / 10);
    }
  }

  /** Python's `str` of an integer: an optional minus sign, then the digits. */
  function IntToString(i: int): (s: string)
    ensures |s| > 0 && '_' !in s && '.' !in s
  {
    if i < 0 then "-" + NatToString(-i) else NatToString(i)
  }

  function ParseInt(s: string): int {
    if |s| > 0 && s[0] == '-' then 0 - (ParseNat(s[1..]) as int) else ParseNat(s)
  }

  lemma {:induction false} IntRoundTrip(i: int)
    ensures ParseInt(IntToString(i)) == i
  {
    if i < 0 {
      NatRoundTrip(-i);
      assert IntToString(i)[1..] == NatToString(-i);
    } else {
      NatRoundTrip(i);
      assert IsDigit(NatToString(i)[0]);
    }
  }

  /** Index of the first occurrence of `c` in `s`, or `|s|` if there is none. */
  function FirstIndex(s: string, c: char): (i: nat)
    ensures i <= |s|
    ensures i < |s| ==> s[i] == c
    ensures forall k :: 0 <= k < i ==> s[k] != c
  {
    if |s| == 0 then 0
    else if s[0] == c then 0
    else 1 + FirstIndex(s[1..], c)
  }

  /** How the zone ids reach the label. A pandas row read by `iterrows` has one
      dtype, so the ids of a table whose other columns are floats (a float
      `demand`, say) arrive as floats; otherwise they stay integers. */
  datatype Rendering = IntegerIds | FloatIds

  /** Python's `str` of a zone id: the integer, or the integral float, which
      is the integer followed by `.0`. */
  function ZoneString(how: Rendering, z: Node): (s: string)
    ensures |s| > 0 && '_' !in s
    ensures how.FloatIds? <==> '.' in s
  {
    match how
    case IntegerIds => IntToString(z)
    case FloatIds => assert (IntToString(z) + ".0")[|IntToString(z)|] == '.'; IntToString(z) + ".0"
  }

  /** Reads a zone id back: the integer part, up to any decimal point. */
  function ParseZone(s: string): int {
    ParseInt(s[..FirstIndex(s, '.')])
  }

  lemma {:induction false} ZoneRoundTrip(how: Rendering, z: Node)
    ensures ParseZone(ZoneString(how, z)) == z
  {
    var a := IntToString(z);
    var s := ZoneString(how, z);
    if how.FloatIds? {
      assert s[|a|] == '.';
      forall k | 0 <= k < |a| ensures s[k] != '.' {
        assert s[k] == a[k];
      }
    }
    assert FirstIndex(s, '.') == |a|;
    assert s[..|a|] == a;
    IntRoundTrip(z);
  }

  /** A zone renders differently as a float and as an integer, so the same
      OD pair gets different labels from tables of different dtypes. */
  lemma {:induction false} RenderingsDiffer(z: Node)
    ensures ZoneString(FloatIds, z) != ZoneString(IntegerIds, z)
  {
    assert |ZoneString(FloatIds, z)| == |ZoneString(IntegerIds, z)| + 2;
  }

  /** The `od_pair` label of an OD pair. */
  function OdPairString(how: Rendering, o: Node, d: Node): string {
    ZoneString(how, o) + "_" + ZoneString(how, d)
  }

  /** Reads an `od_pair` label back as its two zones. */
  function SplitOdPair(s: string): Option<(Node, Node)> {
    var i := FirstIndex(s, '_');
    if i == |s| then None else Some((ParseZone(s[..i]), ParseZone(s[i + 1..])))
  }

  /** The label determines the pair: splitting a label gives the pair back. */
  lemma {:induction false} OdPairRoundTrip(how: Rendering, o: Node, d: Node)
    ensures SplitOdPair(OdPairString(how, o, d)) == Some((o, d))
  {
    var a, b := ZoneString(how, o), ZoneString(how, d);
    var s := OdPairString(how, o, d);
    assert s[|a|] == '_';
    forall k | 0 <= k < |a| ensures s[k] != '_' {
      assert s[k] == a[k];
    }
    assert FirstIndex(s, '_') == |a|;
    assert s[..|a|] == a;
    assert s[|a| + 1..] == b;
    ZoneRoundTrip(how, o);
    ZoneRoundTrip(how, d);
  }

  /** Two OD pairs share a label only if they are the same pair, whichever
      renderings the labels were made with. */
  lemma {:induction false} OdPairInjective(how1: Rendering, o1: Node, d1: Node, how2: Rendering, o2: Node, d2: Node)
    requires OdPairString(how1, o1, d1) == OdPairString(how2, o2, d2)
    ensures o1 == o2 && d1 == d2
  {
    OdPairRoundTrip(how1, o1, d1);
    OdPairRoundTrip(how2, o2, d2);
  }
}

/** Edge-set names `connections_<i>`, built from Python's f-string
    rendering of an integer: decimal digits, with a leading '-' for
    negative numbers. */
module Names {

  const ConnectionsPrefix: string := "connections_"

  function DigitChar(d: nat): (c: char)
    requires d < 10
    ensures '0' <= c <= '9'
  {
    ('0' as int + d) as char
  }

  predicate IsDigit(c: char) {
    '0' <= c <= '9'
  }

  function DigitValue(c: char): (d: nat)
    requires IsDigit(c)
    ensures d < 10 && DigitChar(d) == c
  {
    (c as int - '0' as int) as nat
  }

  /** Decimal rendering of a natural number (no leading zeros). */
  function NatToString(n: nat): (s: string)
    ensures |s| >= 1
    ensures forall i :: 0 <= i < |s| ==> IsDigit(s[i])
    ensures n >= 10 ==> |s| >= 2
  {
    if n < 10 then [DigitChar(n)] else NatToString(n / 10) + [DigitChar(n % 10)]
  }

  /** Reads a string of decimal digits back as a number. */
  function ParseDigits(s: string): nat
    requires forall i :: 0 <= i < |s| ==> IsDigit(s[i])
  {
    if |s| == 0 then 0 else ParseDigits(s[..|s| - 1]) * 10 + DigitValue(s[|s| - 1])
  }

  /** Reading the rendering back gives the number: the rendering is
      lossless. */
  lemma {:induction false} ParseNatToString(n: nat)
    ensures ParseDigits(NatToString(n)) == n
  {
    var s := NatToString(n);
    if n < 10 {
      assert s[..0] == [];
    } else {
      ParseNatToString(n / 10);
      assert s[..|s| - 1] == NatToString(n / 10);
      assert DigitValue(s[|s| - 1]) == n % 10;
    }
  }

  lemma NatToStringInjective(m: nat, n: nat)
    requires NatToString(m) == NatToString(n)
    ensures m == n
  {
    ParseNatToString(m);
    ParseNatToString(n);
  }

  /** Python's `str(i)` for an int. */
  function IntToString(i: int): (s: string)
    ensures |s| >= 1
    ensures i >= 0 <==> IsDigit(s[0])
  {
    if i < 0 then "-" + NatToString(-i) else NatToString(i)
  }

  /** The name `f"connections_{i}"` given to the edge set of the i-th
      adjacency matrix (and looked up for dilation view i). */
  function ConnectionsName(i: int): (s: string)
    ensures |s| > |ConnectionsPrefix| && s[..|ConnectionsPrefix|] == ConnectionsPrefix
  {
    ConnectionsPrefix + IntToString(i)
  }

  /** Distinct indices give distinct edge-set names, so the dictionary
      of edge sets never overwrites an entry. */
  lemma ConnectionsNameInjective(i: int, j: int)
    requires ConnectionsName(i) == ConnectionsName(j)
    ensures i == j
  {
    var p := |ConnectionsPrefix|;
    var si, sj := IntToString(i), IntToString(j);
    assert ConnectionsName(i)[p..] == si;
    assert ConnectionsName(j)[p..] == sj;
    assert si == sj;
    if i >= 0 && j >= 0 {
      NatToStringInjective(i, j);
    } else if i < 0 && j < 0 {
      assert si[1..] == NatToString(-i);
      assert sj[1..] == NatToString(-j);
      NatToStringInjective(-i, -j);
    }
  }
}

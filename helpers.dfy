/** src/lib/helpers.ts: the colour shown for a peer-connection state, and the
    integer branches of `formatBytes` (an explicit 'B' unit, and zero bytes
    with no unit). The branches that divide by powers of 1000 and round with
    `toFixed` work on floating point and are not modelled. */
module Helpers {
  import opened Base

  /** `switch` on `pc.connectionState`: green when connected, orange while
      connecting, red for any other string. */
  function ConnectionStateColor(state: string): (color: string)
    ensures color == "green" <==> state == "connected"
    ensures color == "orange" <==> state == "connecting"
    ensures color == "red" <==> state != "connected" && state != "connecting"
  {
    match state
    case "connected" => "green"
    case "connecting" => "orange"
    case _ => "red"
  }

  /** The character of the decimal digit `d`. */
  function DigitChar(d: nat): (c: char)
    requires d < 10
    ensures '0' <= c <= '9'
  {
    (48 + d) as char
  }

  predicate IsDigits(s: string)
  {
    forall i :: 0 <= i < |s| ==> '0' <= s[i] <= '9'
  }

  /** How JavaScript renders a non-negative integer number as a string:
      its decimal digits, most significant first, with no leading zero. */
  function NatToDecimal(n: nat): (s: string)
    ensures |s| >= 1 && IsDigits(s)
    ensures |s| > 1 ==> s[0] != '0'
  {
    if n < 10 then [DigitChar(n)] else NatToDecimal(n / 10) + [DigitChar(n % 10)]
  }

  /** How JavaScript renders an integer number (`bytes + ' B'` for an integer
      `bytes`): a minus sign before the digits when negative. */
  function IntToDecimal(i: int): string
  {
    if i < 0 then "-" + NatToDecimal(-i) else NatToDecimal(i)
  }

  /** Reads a string of decimal digits back as a number (the partner of
      `NatToDecimal`). */
  function ParseNat(s: string): nat
    requires IsDigits(s)
  {
    if s == [] then 0 else ParseNat(s[..|s| - 1]) * 10 + (s[|s| - 1] as int - 48)
  }

  /** Reads an optionally signed decimal integer back. */
  function ParseInt(s: string): Option<int>
  {
    if |s| >= 2 && s[0] == '-' && IsDigits(s[1..]) then Some(-(ParseNat(s[1..]) as int))
    else if |s| >= 1 && IsDigits(s) then Some(ParseNat(s))
    else None
  }

  /** The decimal rendering reads back as the number it renders. */
  lemma {:induction false} NatToDecimalRoundTrip(n: nat)
    ensures ParseNat(NatToDecimal(n)) == n
  {
    if n >= 10 {
      var s := NatToDecimal(n);
      NatToDecimalRoundTrip(n / 10);
      assert s[..|s| - 1] == NatToDecimal(n / 10);
    }
  }

  /** The same for signed integers. */
  lemma IntToDecimalRoundTrip(i: int)
    ensures ParseInt(IntToDecimal(i)) == Some(i)
  {
    if i < 0 {
      var d := NatToDecimal(-i);
      var s := "-" + d;
      assert s[0] == '-' && s[1..] == d;
      NatToDecimalRoundTrip(-i);
      assert ParseInt(s) == Some(-(ParseNat(d) as int));
    } else {
      var d := NatToDecimal(i);
      assert d[0] != '-';
      NatToDecimalRoundTrip(i);
      assert ParseInt(d) == Some(ParseNat(d));
    }
  }

  /** `formatBytes(bytes, size)`. `unit` is the optional `size` argument
      (None for `undefined`). The result is None on the branches that format
      with floating point ('KB' to 'TB', and a non-zero byte count with no or
      an unknown unit), which this model leaves out. */
  function FormatBytes(bytes: int, unit: Option<string>): (r: Option<string>)
    ensures r.Some? <==> unit == Some("B") || (bytes == 0 && !(unit.Some? && FloatUnit(unit.value)))
    ensures r.Some? ==> |r.value| >= 3 && r.value[|r.value| - 2..] == " B"
  {
    if unit == Some("B") then
      var d := IntToDecimal(bytes);
      assert (d + " B")[|d|..] == " B";
      Some(d + " B")
    else if unit.Some? && FloatUnit(unit.value) then None
    else if bytes == 0 then Some("0 B")
    else None
  }

  /** The units `formatBytes` renders by division and `toFixed`. */
  predicate FloatUnit(u: string)
  {
    u == "KB" || u == "MB" || u == "GB" || u == "TB"
  }

  /** `formatBytes(b, 'B')` is the decimal rendering of `b` followed by " B":
      stripping the suffix and parsing gives `b` back. */
  lemma FormatBytesInB(bytes: int)
    ensures var r := FormatBytes(bytes, Some("B"));
            r.Some? && |r.value| >= 3 && r.value[|r.value| - 2..] == " B" &&
            ParseInt(r.value[..|r.value| - 2]) == Some(bytes)
  {
    var d := IntToDecimal(bytes);
    var r := d + " B";
    assert r[..|r| - 2] == d;
    IntToDecimalRoundTrip(bytes);
  }

  /** With no unit, zero bytes is "0 B", the same text the 'B' unit gives. */
  lemma FormatBytesZero()
    ensures FormatBytes(0, None) == Some("0 B")
    ensures FormatBytes(0, None) == FormatBytes(0, Some("B"))
  {
    assert DigitChar(0) == '0';
    assert IntToDecimal(0) + " B" == "0 B";
  }
}

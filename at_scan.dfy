// The text the AT driver scans (at_driver.c): at_sscanf over the +IPD
// header of a message the module forwards from a connection.

module AtScan {
  import opened Common
  import opened AtDefs

  /** The characters isspace accepts, which strtol skips before the number. */
  predicate IsSpace(b: byte)
  {
    b == ' ' || b == '\t' || b == '\n' || b == '\U{B}' || b == '\U{C}' || b == '\r'
  }

  /** Length of the run of white space at the head of s. */
  function SpaceRun(s: seq<byte>): (k: nat)
    ensures k <= |s|
    ensures k < |s| ==> !IsSpace(s[k])
  {
    if s == [] || !IsSpace(s[0]) then 0 else 1 + SpaceRun(s[1..])
  }

  /**
   * strtol(s, &end, 10) where long is 32 bits wide: white space, an optional
   * sign and a run of digits; the value saturates at LONG_MIN and LONG_MAX.
   * The result is the value and the number of bytes consumed, which is 0
   * (and the value 0) when there are no digits.
   */
  function Strtol(s: seq<byte>): (r: (int, nat))
    ensures r.1 <= |s|
    ensures r.1 == 0 ==> r.0 == 0
    ensures -0x8000_0000 <= r.0 <= INT32_MAX
  {
    var w := SpaceRun(s);
    var t := s[w..];
    var signed := |t| > 0 && (t[0] == '-' || t[0] == '+');
    var body := if signed then t[1..] else t;
    var k := DigitRun(body);
    if k == 0 then (0, 0)
    else
      var v: int := DigitsValue(body[..k]);
      var value := if t[0] == '-' then -v else v;
      var clamped := if value > INT32_MAX then INT32_MAX
        else if value < -0x8000_0000 then -0x8000_0000 else value;
      (clamped, w + k + (if signed then 1 else 0))
  }

  /** The '%d' conversion at text position i: strtol on a NUL-terminated copy of at most 11 bytes. */
  function ScanDec(src: seq<byte>, i: nat): (r: (int, nat))
    requires i <= |src|
    ensures i + r.1 <= |src|
  {
    Strtol(src[i..if |src| - i < 11 then |src| else i + 11])
  }

  /** What at_sscanf assigned, in order, and whether it reached the end of the format. */
  datatype ScanResult = ScanResult(values: seq<int>, complete: bool)

  /**
   * One step of at_sscanf at format position j and text position i: the
   * values it assigns, how many format characters it consumes and how far
   * the text position moves; None when the scan fails. A literal match moves
   * one byte; "%d" moves past the bytes strtol consumed; "%s" (not
   * implemented there) only moves one byte.
   */
  function ScanStep(src: seq<byte>, fmt: seq<byte>, i: nat, j: nat): (r: Option<(seq<int>, nat, nat)>)
    requires j < |fmt| && i < |src|
    ensures r.Some? ==> 1 <= r.value.1 && j + r.value.1 <= |fmt| && |r.value.0| <= 1
  {
    if fmt[j] == src[i] then Some(([], 1, 1))
    else if fmt[j] != '%' || j + 1 == |fmt| then None
    else if fmt[j + 1] == 'd' then
      var conv := ScanDec(src, i);
      Some(([conv.0], 2, conv.1))
    else if fmt[j + 1] == 's' then Some(([], 2, 1))
    else None
  }

  /** at_sscanf(src, fmt, ...) from text position i and format position j. */
  function Sscanf(src: seq<byte>, fmt: seq<byte>, i: nat, j: nat): (r: ScanResult)
    requires j <= |fmt|
    ensures |r.values| <= |fmt| - j
    decreases |fmt| - j
  {
    if j == |fmt| then ScanResult([], true)
    else if i >= |src| then ScanResult([], false)
    else match ScanStep(src, fmt, i, j)
      case None => ScanResult([], false)
      case Some((vs, used, moved)) =>
        var rest := Sscanf(src, fmt, i + moved, j + used);
        ScanResult(vs + rest.values, rest.complete)
  }

  /** One step of the scan, unfolded: the values of the step, then the rest of the scan. */
  lemma SscanfStep(src: seq<byte>, fmt: seq<byte>, i: nat, j: nat, got: seq<int>, used: nat, moved: nat, e: nat, f: nat)
    requires j < |fmt| && i < |src| && ScanStep(src, fmt, i, j) == Some((got, used, moved))
    requires e == i + moved && f == j + used
    ensures Sscanf(src, fmt, i, j) == ScanResult(got + Sscanf(src, fmt, e, f).values, Sscanf(src, fmt, e, f).complete)
  {
    assert ScanStep(src, fmt, i, j).value == (got, used, moved);
  }

  /**
   * at_sscanf's loop over the format: the values it assigns, in order, and
   * whether it reached the end of the format. It computes Sscanf.
   */
  method Scan(src: seq<byte>, fmt: seq<byte>) returns (values: seq<int>, complete: bool)
    ensures ScanResult(values, complete) == Sscanf(src, fmt, 0, 0)
  {
    var i: nat := 0;
    var j: nat := 0;
    values := [];
    complete := true;
    while j < |fmt|
      invariant j <= |fmt|
      invariant values + Sscanf(src, fmt, i, j).values == Sscanf(src, fmt, 0, 0).values
      invariant Sscanf(src, fmt, i, j).complete == Sscanf(src, fmt, 0, 0).complete
      decreases |fmt| - j
    {
      var ok := i < |src|;
      var moved: nat := 1;
      var used: nat := 1;
      var got: seq<int> := [];
      if ok && fmt[j] != src[i] {
        if fmt[j] != '%' || j + 1 == |fmt| {
          ok := false;
        } else if fmt[j + 1] == 'd' {
          var conv := ScanDec(src, i);
          got := [conv.0];
          moved := conv.1;
        } else if fmt[j + 1] != 's' {
          ok := false;
        }
        used := 2;
      }
      if !ok {
        assert Sscanf(src, fmt, i, j) == ScanResult([], false);
        assert values + [] == values;
        complete := false;
        break;
      }
      var ni := i + moved;
      var nj := j + used;
      SscanfStep(src, fmt, i, j, got, used, moved, ni, nj);
      AppendAssoc(values, got, Sscanf(src, fmt, ni, nj).values);
      values := values + got;
      i := ni;
      j := nj;
    }
    if complete {
      assert values + [] == values;
    }
  }

  /** The tag of a message the module forwards from a connection. */
  const IPD_PREFIX: seq<byte> := "+IPD,"
  const IPD_SINGLE_FMT: seq<byte> := "+IPD,%d"
  const IPD_MULTIPLE_FMT: seq<byte> := "+IPD,%d,%d"

  /**
   * The payload length process_ipd_msg reads from a +IPD header into its
   * uint32_t, when at_sscanf assigns it.
   */
  function IpdLength(header: seq<byte>, multiple: bool): (r: Option<nat>)
    ensures r.Some? ==> IsU32(r.value)
  {
    var scan := Sscanf(header, if multiple then IPD_MULTIPLE_FMT else IPD_SINGLE_FMT, 0, 0);
    var k := if multiple then 1 else 0;
    if |scan.values| > k then Some(Wrap32(scan.values[k])) else None
  }

  /** The header the module sends for a payload of len bytes (on connection id when multiplexed). */
  function IpdHeader(id: nat, len: nat, multiple: bool): seq<byte>
  {
    if multiple then IPD_PREFIX + (Digits(id) + ([','] + Digits(len))) else IPD_PREFIX + Digits(len)
  }

  /** A run of k digits at the head of s, small enough for a long, is what strtol reads. */
  lemma StrtolOfRun(s: seq<byte>, k: nat)
    requires 1 <= k <= |s| && AllDigits(s[..k]) && (k == |s| || !IsDigit(s[k]))
    requires DigitsValue(s[..k]) <= INT32_MAX
    ensures Strtol(s) == (DigitsValue(s[..k]), k)
  {
    assert IsDigit(s[..k][0]);
    assert SpaceRun(s) == 0;
    assert s[0..] == s;
  }

  lemma StrtolOfDigits(n: nat, rest: seq<byte>)
    requires n <= INT32_MAX
    requires rest == [] || !IsDigit(rest[0])
    ensures |Digits(n)| <= 10
    ensures Strtol((Digits(n) + rest)[..if |Digits(n) + rest| < 11 then |Digits(n) + rest| else 11])
         == (n, |Digits(n)|)
  {
    DigitsLength(n, 10);
    var d := Digits(n);
    var w := (d + rest)[..if |d + rest| < 11 then |d + rest| else 11];
    assert w[..|d|] == d;
    assert |d| < |w| ==> w[|d|] == rest[0];
    DigitsValueOfDigits(n);
    StrtolOfRun(w, |d|);
  }

  lemma ScanDecDigits(src: seq<byte>, i: nat, n: nat)
    requires n <= INT32_MAX
    requires i + |Digits(n)| <= |src| && src[i..i + |Digits(n)|] == Digits(n)
    requires i + |Digits(n)| == |src| || !IsDigit(src[i + |Digits(n)|])
    ensures ScanDec(src, i) == (n, |Digits(n)|)
  {
    var d := Digits(n);
    var rest := src[i + |d|..];
    assert src[i..] == d + rest;
    StrtolOfDigits(n, rest);
    var end := if |src| - i < 11 then |src| else i + 11;
    assert src[i..end] == (d + rest)[..if |d + rest| < 11 then |d + rest| else 11];
  }

  /** A format character equal to the text's moves both positions by one. */
  lemma SscanfMatch(src: seq<byte>, fmt: seq<byte>, i: nat, j: nat)
    requires j < |fmt| && i < |src| && fmt[j] == src[i]
    ensures Sscanf(src, fmt, i, j) == Sscanf(src, fmt, i + 1, j + 1)
  {
    assert ScanStep(src, fmt, i, j) == Some(([], 1, 1));
    var rest := Sscanf(src, fmt, i + 1, j + 1);
    assert [] + rest.values == rest.values;
  }

  /** Format characters that match the text are skipped one by one, up to text position e and format position f. */
  lemma {:induction false} SscanfLiteral(src: seq<byte>, fmt: seq<byte>, i: nat, j: nat, e: nat, f: nat)
    requires i <= e <= |src| && j <= f <= |fmt| && e - i == f - j
    requires fmt[j..f] == src[i..e]
    ensures Sscanf(src, fmt, i, j) == Sscanf(src, fmt, e, f)
    decreases e - i
  {
    if i < e {
      assert fmt[j] == fmt[j..f][0];
      assert src[i] == src[i..e][0];
      SscanfMatch(src, fmt, i, j);
      assert fmt[j + 1..f] == fmt[j..f][1..];
      assert src[i + 1..e] == src[i..e][1..];
      SscanfLiteral(src, fmt, i + 1, j + 1, e, f);
    }
  }

  /**
   * A "%d" facing text that is not a '%' is a conversion, followed by the
   * rest of the scan from text position e and format position f.
   */
  lemma SscanfConversion(src: seq<byte>, fmt: seq<byte>, i: nat, j: nat, a: int, e: nat, f: nat)
    requires f == j + 2 && f <= |fmt| && fmt[j] == '%' && fmt[j + 1] == 'd'
    requires i < |src| && src[i] != '%'
    requires ScanDec(src, i) == (a, e - i) && i <= e
    ensures Sscanf(src, fmt, i, j) == ScanResult([a] + Sscanf(src, fmt, e, f).values, Sscanf(src, fmt, e, f).complete)
  {
    ScanStepDec(src, fmt, i, j);
    SscanfStep(src, fmt, i, j, [a], 2, e - i, e, f);
  }

  /** A "%d" facing text that is not a '%' takes strtol's value and length. */
  lemma ScanStepDec(src: seq<byte>, fmt: seq<byte>, i: nat, j: nat)
    requires j + 1 < |fmt| && fmt[j] == '%' && fmt[j + 1] == 'd'
    requires i < |src| && src[i] != '%'
    ensures ScanStep(src, fmt, i, j) == Some(([ScanDec(src, i).0], 2, ScanDec(src, i).1))
  {
  }

  /** A number in the text up to position e, read by the "%d" at format position j. */
  lemma SscanfNumber(src: seq<byte>, fmt: seq<byte>, i: nat, j: nat, n: nat, e: nat, f: nat)
    requires n <= INT32_MAX
    requires f == j + 2 && f <= |fmt| && fmt[j] == '%' && fmt[j + 1] == 'd'
    requires e == i + |Digits(n)| && e <= |src| && src[i..e] == Digits(n)
    requires e == |src| || !IsDigit(src[e])
    ensures Sscanf(src, fmt, i, j) == ScanResult([n] + Sscanf(src, fmt, e, f).values, Sscanf(src, fmt, e, f).complete)
  {
    ScanDecDigits(src, i, n);
    DigitAtStart(src, i, e);
    SscanfConversion(src, fmt, i, j, n, e, f);
  }

  /** A non-empty run of digits from i starts with a digit, not a '%'. */
  lemma DigitAtStart(src: seq<byte>, i: nat, e: nat)
    requires i < e <= |src| && AllDigits(src[i..e])
    ensures IsDigit(src[i]) && src[i] != '%'
  {
    assert src[i..e][0] == src[i];
  }

  /** A "%d" that ends the format reads a number that ends the text, and the scan completes. */
  lemma ScanLastNumber(src: seq<byte>, fmt: seq<byte>, i: nat, j: nat, n: nat)
    requires n <= INT32_MAX
    requires j + 2 == |fmt| && fmt[j] == '%' && fmt[j + 1] == 'd'
    requires i <= |src| && src[i..] == Digits(n)
    ensures Sscanf(src, fmt, i, j) == ScanResult([n], true)
  {
    assert src[i..|src|] == src[i..];
    SscanfNumber(src, fmt, i, j, n, |src|, |fmt|);
    assert Sscanf(src, fmt, |src|, |fmt|) == ScanResult([], true);
  }

  /** ",%d" at the end of the format reads the number after a comma. */
  lemma ScanCommaNumber(src: seq<byte>, fmt: seq<byte>, e: nat, f: nat, b: nat)
    requires b <= INT32_MAX
    requires f + 3 == |fmt| && fmt[f] == ',' && fmt[f + 1] == '%' && fmt[f + 2] == 'd'
    requires e < |src| && src[e] == ',' && src[e + 1..] == Digits(b)
    ensures Sscanf(src, fmt, e, f) == ScanResult([b], true)
  {
    assert fmt[f..f + 1] == src[e..e + 1];
    SscanfLiteral(src, fmt, e, f, e + 1, f + 1);
    ScanLastNumber(src, fmt, e + 1, f + 1, b);
  }

  /** "%d,%d" at the end of the format reads two numbers separated by a comma. */
  lemma ScanNumberPair(src: seq<byte>, fmt: seq<byte>, i: nat, j: nat, a: nat, b: nat)
    requires a <= INT32_MAX && b <= INT32_MAX
    requires j <= |fmt| && fmt[j..] == "%d,%d"
    requires i <= |src| && src[i..] == Digits(a) + ([','] + Digits(b))
    ensures Sscanf(src, fmt, i, j) == ScanResult([a, b], true)
  {
    var e := i + |Digits(a)|;
    assert src[i..e] == Digits(a);
    assert src[e] == ',';
    assert src[e + 1..] == Digits(b);
    assert fmt[j] == '%' && fmt[j + 1] == 'd' && fmt[j + 2] == ',';
    assert fmt[j + 3] == '%' && fmt[j + 4] == 'd' && j + 5 == |fmt|;
    ScanCommaNumber(src, fmt, e, j + 2, b);
    SscanfNumber(src, fmt, i, j, a, e, j + 2);
    assert [a] + [b] == [a, b];
  }

  lemma ScanMultipleHeader(id: nat, len: nat)
    requires id <= INT32_MAX && len <= INT32_MAX
    ensures Sscanf(IpdHeader(id, len, true), IPD_MULTIPLE_FMT, 0, 0) == ScanResult([id, len], true)
  {
    var h := IpdHeader(id, len, true);
    var fmt := IPD_MULTIPLE_FMT;
    assert h[0..5] == fmt[0..5];
    SscanfLiteral(h, fmt, 0, 0, 5, 5);
    assert h[5..] == Digits(id) + ([','] + Digits(len));
    assert fmt[5..] == "%d,%d";
    ScanNumberPair(h, fmt, 5, 5, id, len);
  }

  lemma ScanSingleHeader(len: nat)
    requires len <= INT32_MAX
    ensures Sscanf(IpdHeader(0, len, false), IPD_SINGLE_FMT, 0, 0) == ScanResult([len], true)
  {
    var h := IpdHeader(0, len, false);
    var fmt := IPD_SINGLE_FMT;
    assert h[0..5] == fmt[0..5];
    SscanfLiteral(h, fmt, 0, 0, 5, 5);
    assert h[5..] == Digits(len);
    ScanLastNumber(h, fmt, 5, 5, len);
  }

  /**
   * A single-connection header scanned with the multiplexed format: the
   * length lands in the id and the scan runs out of text before it assigns
   * the length.
   */
  lemma ScanSingleWithMultiple(len: nat)
    requires len <= INT32_MAX
    ensures Sscanf(IpdHeader(0, len, false), IPD_MULTIPLE_FMT, 0, 0) == ScanResult([len], false)
    ensures IpdLength(IpdHeader(0, len, false), true) == None
  {
    ScanSingleWithMultipleValues(len);
  }

  lemma ScanSingleWithMultipleValues(len: nat)
    requires len <= INT32_MAX
    ensures Sscanf(IpdHeader(0, len, false), IPD_MULTIPLE_FMT, 0, 0) == ScanResult([len], false)
  {
    assert IPD_MULTIPLE_FMT == IPD_PREFIX + "%d" + ",%d";
    ScanRunsOutAfterNumber(IPD_PREFIX, len, ",%d");
  }

  /** A text that is the format's literal head and one number, under a format that goes on after its "%d", runs out with that one value. */
  lemma ScanRunsOutAfterNumber(head: seq<byte>, n: nat, tail: seq<byte>)
    requires n <= INT32_MAX && tail != []
    ensures Sscanf(head + Digits(n), head + "%d" + tail, 0, 0) == ScanResult([n], false)
  {
    var src, fmt := head + Digits(n), head + "%d" + tail;
    var e, f := |src|, |head| + 2;
    assert fmt[0..|head|] == head == src[0..|head|];
    SscanfLiteral(src, fmt, 0, 0, |head|, |head|);
    assert src[|head|..e] == Digits(n);
    assert fmt[|head|] == '%' && fmt[|head| + 1] == 'd';
    SscanfNumber(src, fmt, |head|, |head|, n, e, f);
    assert Sscanf(src, fmt, e, f) == ScanResult([], false);
  }

  /** at_sscanf reads back the length (and id) of every header the module can send. */
  lemma IpdLengthOfHeader(id: nat, len: nat, multiple: bool)
    requires id <= INT32_MAX && len <= INT32_MAX
    ensures IpdLength(IpdHeader(id, len, multiple), multiple) == Some(len)
  {
    assert Wrap32(len) == len;
    if multiple {
      ScanMultipleHeader(id, len);
      assert [id, len][1] == len;
    } else {
      assert IpdHeader(id, len, false) == IpdHeader(0, len, false);
      ScanSingleHeader(len);
      assert [len][0] == len;
    }
  }
}

// Model of the generic IIO layer (iio/iio.c): channel-number parsing, name
// lookups in NULL-terminated tables, the length-prefixed attribute packing
// sent to the client, the interface registry with its channel masks, and the
// routing of an attribute read or write to the callback that serves it.

module Iio {
  import opened Common

  /** A C string: the bytes before its terminating NUL. */
  type Name = seq<byte>

  predicate CString(s: seq<byte>) { forall i :: 0 <= i < |s| ==> s[i] != '\0' }

  // ---------------------------------------------------------------------
  // iio_get_channel_number
  // ---------------------------------------------------------------------

  /** The longest suffix of s made of decimal digits. */
  function TrailingDigits(s: seq<byte>): (d: seq<byte>)
    ensures |d| <= |s| && d == s[|s| - |d|..]
    ensures AllDigits(d)
    ensures |d| < |s| ==> !IsDigit(s[|s| - |d| - 1])
  {
    if s == [] || !IsDigit(s[|s| - 1]) then []
    else TrailingDigits(s[..|s| - 1]) + [s[|s| - 1]]
  }

  /**
   * The number a channel name ends in: the value of the last run of decimal
   * digits in it, or 0 when it has none ("voltage2" is 2).
   */
  function LastNumber(s: seq<byte>): nat
  {
    if s == [] then 0
    else if !IsDigit(s[|s| - 1]) then LastNumber(s[..|s| - 1])
    else DigitsValue(TrailingDigits(s))
  }

  /**
   * What iio_get_channel_number returns for a name: strtol's value of the
   * last digit run, saturated at LONG_MAX (2^31 - 1 with a 32-bit long),
   * which the int32_t ch_num then holds unchanged.
   */
  function ChannelNumberOf(s: seq<byte>): nat
  {
    SaturateLong(LastNumber(s))
  }

  /** A run of digits after a non-digit is the whole trailing run. */
  lemma {:induction false} TrailingDigitsOfRun(t: seq<byte>, d: seq<byte>)
    requires AllDigits(d)
    requires t == [] || !IsDigit(t[|t| - 1])
    ensures TrailingDigits(t + d) == d
    decreases |d|
  {
    if d == [] {
      assert t + d == t;
    } else {
      var d', c := d[..|d| - 1], d[|d| - 1];
      assert d == d' + [c] && t + d == (t + d') + [c];
      TrailingDigitsOfRun(t, d');
      TrailingDigitsSnoc(t + d', c);
    }
  }

  /** A digit at the end extends the trailing run by one. */
  lemma TrailingDigitsSnoc(s: seq<byte>, c: byte)
    requires IsDigit(c)
    ensures TrailingDigits(s + [c]) == TrailingDigits(s) + [c]
  {
    assert (s + [c])[..|s|] == s;
  }

  /** A name that ends in a digit run after a non-digit ends in that run's number. */
  lemma LastNumberOfRun(t: seq<byte>, d: seq<byte>)
    requires d != [] && AllDigits(d)
    requires t == [] || !IsDigit(t[|t| - 1])
    ensures LastNumber(t + d) == DigitsValue(d)
  {
    TrailingDigitsOfRun(t, d);
  }

  /** A non-digit at the end does not change the number. */
  lemma LastNumberAfterNonDigit(t: seq<byte>, c: byte)
    requires !IsDigit(c)
    ensures LastNumber(t + [c]) == LastNumber(t)
  {
    assert (t + [c])[..|t|] == t;
  }

  /** A name without digits has channel number 0. */
  lemma {:induction false} LastNumberWithoutDigits(s: seq<byte>)
    requires forall i :: 0 <= i < |s| ==> !IsDigit(s[i])
    ensures LastNumber(s) == 0
  {
    if s != [] {
      LastNumberWithoutDigits(s[..|s| - 1]);
    }
  }

  /**
   * iio_get_channel_number: scan the name; at a digit strtol reads the whole
   * run and the scan resumes after it, otherwise the scan steps one byte.
   */
  method ChannelNumber(ch: Name) returns (chNum: nat)
    ensures chNum <= INT32_MAX
    ensures chNum == ChannelNumberOf(ch)
  {
    var p := 0;
    chNum := 0;
    while p < |ch|
      invariant p <= |ch|
      invariant chNum == SaturateLong(LastNumber(ch[..p]))
      invariant 0 < p < |ch| && IsDigit(ch[p]) ==> !IsDigit(ch[p - 1])
      decreases |ch| - p
    {
      if IsDigit(ch[p]) {
        var k;
        k, chNum := ReadRun(ch, p);
        p := p + k;
      } else {
        NonDigitStep(ch, p);
        p := p + 1;
      }
    }
    assert ch[..p] == ch;
  }

  /**
   * strtol(ch + p, &end, 10) at a digit that follows a non-digit: the length
   * of the digit run and its value, saturated at LONG_MAX, which is the
   * name's number up to the run's end.
   */
  method ReadRun(ch: Name, p: nat) returns (k: nat, v: nat)
    requires p < |ch| && IsDigit(ch[p])
    requires 0 < p ==> !IsDigit(ch[p - 1])
    ensures 1 <= k && p + k <= |ch|
    ensures v == SaturateLong(LastNumber(ch[..p + k]))
    ensures p + k < |ch| ==> !IsDigit(ch[p + k])
  {
    k := DigitRun(ch[p..]);
    DigitRunStep(ch, p, k);
    DigitRunValue(ch, p, k);
    v := SaturateLong(DigitsValue(ch[p..p + k]));
  }

  /** The digit run that starts at p: at least one digit, inside the name, and followed by a non-digit. */
  lemma DigitRunStep(ch: Name, p: nat, k: nat)
    requires p < |ch| && IsDigit(ch[p])
    requires k == DigitRun(ch[p..])
    ensures 1 <= k && p + k <= |ch| && AllDigits(ch[p..p + k])
    ensures p + k < |ch| ==> !IsDigit(ch[p + k])
  {
    var s := ch[p..];
    assert s[0] == ch[p];
    assert ch[p..p + k] == s[..k];
    if p + k < |ch| {
      assert ch[p + k] == s[k];
    }
  }

  /** A digit run that starts after a non-digit gives the number of the name up to its end. */
  lemma DigitRunValue(ch: Name, p: nat, k: nat)
    requires 1 <= k && p + k <= |ch| && AllDigits(ch[p..p + k])
    requires 0 < p ==> !IsDigit(ch[p - 1])
    ensures LastNumber(ch[..p + k]) == DigitsValue(ch[p..p + k])
  {
    var t, run := ch[..p], ch[p..p + k];
    assert t + run == ch[..p + k];
    assert LastNumber(t + run) == DigitsValue(run) by {
      assert t != [] ==> t[|t| - 1] == ch[p - 1];
      LastNumberOfRun(t, run);
    }
  }

  /** Stepping over a non-digit keeps the number of the name so far. */
  lemma NonDigitStep(ch: Name, p: nat)
    requires p < |ch| && !IsDigit(ch[p])
    ensures LastNumber(ch[..p + 1]) == LastNumber(ch[..p])
  {
    LastNumberAfterNonDigit(ch[..p], ch[p]);
    assert ch[..p + 1] == ch[..p] + [ch[p]];
  }

  // ---------------------------------------------------------------------
  // iio_get_channel_id and iio_get_attribute_id
  // ---------------------------------------------------------------------

  /** The position of the first entry equal to name, or -1 when there is none. */
  function IndexOf(name: Name, names: seq<Name>): (r: int)
    ensures -1 <= r < |names|
    ensures r == -1 <==> name !in names
    ensures r >= 0 ==> names[r] == name && forall k :: 0 <= k < r ==> names[k] != name
  {
    if names == [] then -1
    else if names[0] == name then 0
    else
      var r := IndexOf(name, names[1..]);
      if r < 0 then -1 else r + 1
  }

  /**
   * The value of an id lookup in a NULL-terminated table: -EINVAL when the
   * first entry is already the terminator, -ENOENT when no name matches.
   */
  function LookupId(name: Name, names: seq<Name>): (r: int)
    ensures r == -EINVAL <==> names == []
    ensures r == -ENOENT <==> names != [] && name !in names
    ensures r >= 0 <==> name in names
    ensures r >= 0 ==> r == IndexOf(name, names)
  {
    if names == [] then -EINVAL
    else if IndexOf(name, names) < 0 then -ENOENT
    else IndexOf(name, names)
  }

  /**
   * iio_get_channel_id and iio_get_attribute_id, which share one body:
   * walk the table up to its NULL entry and return the first strcmp match.
   */
  method GetId(name: Name, names: seq<Name>) returns (id: int)
    ensures id == LookupId(name, names)
  {
    if |names| == 0 {
      return -EINVAL;
    }
    var i := 0;
    while i < |names|
      invariant 0 <= i <= |names|
      invariant forall k :: 0 <= k < i ==> names[k] != name
    {
      if names[i] == name {
        return i;
      }
      i := i + 1;
    }
    return -ENOENT;
  }

  // ---------------------------------------------------------------------
  // iio_read_all_attr: the length-prefixed attribute packing
  // ---------------------------------------------------------------------

  /** What an attribute's show callback produced: its return value and the C string it left in local_buf. */
  datatype Shown = Shown(length: int, text: Name)

  /** attr_length rounded up to a multiple of 4, as ((n >> 2) + 1) << 2 when n & 3 is not 0. */
  function Pad4(n: nat): (r: nat)
    ensures r % 4 == 0 && n <= r < n + 4
  {
    if n % 4 != 0 then (n / 4 + 1) * 4 else n
  }

  /** How far one attribute moves the offset j: the header, and the padded text when the length is not negative. */
  function Advance(s: Shown): nat
  {
    4 + (if s.length >= 0 then Pad4(s.length) else 0)
  }

  /** The offset after packing the attributes in order. */
  function PackedSize(rs: seq<Shown>): (n: nat)
    ensures n % 4 == 0
    ensures n >= 4 * |rs|
  {
    if rs == [] then 0
    else
      var before, step := PackedSize(rs[..|rs| - 1]), Advance(rs[|rs| - 1]);
      AlignedSum(before, step);
      before + step
  }

  lemma AlignedSum(a: nat, b: nat)
    requires a % 4 == 0
    requires b % 4 == 0
    ensures (a + b) % 4 == 0
  {
    assert a == 4 * (a / 4);
    assert b == 4 * (b / 4);
  }

  lemma {:induction false} PackedSizeGrows(rs: seq<Shown>, k: nat)
    requires k <= |rs|
    ensures PackedSize(rs[..k]) <= PackedSize(rs)
    decreases |rs|
  {
    if k < |rs| {
      var rs' := rs[..|rs| - 1];
      assert rs'[..k] == rs[..k];
      PackedSizeGrows(rs', k);
    } else {
      assert rs[..k] == rs;
    }
  }

  /** Bytes the store of one attribute touches: the header, and the text with sprintf's NUL. */
  function Span(s: Shown): nat
  {
    4 + (if s.length >= 0 then |s.text| + 1 else 0)
  }

  /** Every write of the packing lands inside a buffer of n bytes. */
  predicate Fits(rs: seq<Shown>, n: nat)
  {
    rs == [] || (Fits(rs[..|rs| - 1], n) && PackedSize(rs[..|rs| - 1]) + Span(rs[|rs| - 1]) <= n)
  }

  lemma {:induction false} FitsPrefix(rs: seq<Shown>, k: nat, n: nat)
    requires Fits(rs, n) && k <= |rs|
    ensures Fits(rs[..k], n)
    decreases |rs|
  {
    if k < |rs| {
      var rs' := rs[..|rs| - 1];
      assert rs'[..k] == rs[..k];
      FitsPrefix(rs', k, n);
    } else {
      assert rs[..k] == rs;
    }
  }

  /** The buffer after writing src at offset at. */
  function Put(b: seq<byte>, at: nat, src: seq<byte>): (r: seq<byte>)
    requires at + |src| <= |b|
    ensures |r| == |b|
  {
    b[..at] + src + b[at + |src|..]
  }

  /** Byte k of x, least significant first. */
  function Byte0(x: nat): nat { x % 256 }
  function Byte1(x: nat): nat { x / 256 % 256 }
  function Byte2(x: nat): nat { x / 256 / 256 % 256 }
  function Byte3(x: nat): nat { x / 256 / 256 / 256 % 256 }

  /** The number whose bytes, least significant first, are b0, b1, b2 and b3. */
  function Join(b0: nat, b1: nat, b2: nat, b3: nat): nat
  {
    b0 + 256 * (b1 + 256 * (b2 + 256 * b3))
  }

  lemma DivMod256(q: nat, r: nat)
    requires r < 256
    ensures (256 * q + r) / 256 == q && (256 * q + r) % 256 == r
  {
  }

  /** The bytes of a joined number are the bytes it was joined from. */
  lemma ByteOfJoin(b0: nat, b1: nat, b2: nat, b3: nat)
    requires b0 < 256 && b1 < 256 && b2 < 256 && b3 < 256
    ensures var x := Join(b0, b1, b2, b3);
            Byte0(x) == b0 && Byte1(x) == b1 && Byte2(x) == b2 && Byte3(x) == b3
  {
    DivMod256(b1 + 256 * (b2 + 256 * b3), b0);
    DivMod256(b2 + 256 * b3, b1);
    DivMod256(b3, b2);
  }

  /** A uint32_t is the join of its four bytes. */
  lemma JoinOfBytes(x: nat)
    requires x < U32_MODULUS
    ensures Join(Byte0(x), Byte1(x), Byte2(x), Byte3(x)) == x
  {
    var q1 := x / 256;
    var q2 := q1 / 256;
    var q3 := q2 / 256;
    assert x == q1 * 256 + x % 256;
    assert q1 == q2 * 256 + q1 % 256;
    assert q2 == q3 * 256 + q2 % 256;
    assert q3 < 256;
  }

  /** The four bytes a little-endian core stores for a uint32_t value. */
  function Le32(x: nat): (r: seq<byte>)
    requires x < U32_MODULUS
    ensures |r| == 4
  {
    [Byte0(x) as byte, Byte1(x) as byte, Byte2(x) as byte, Byte3(x) as byte]
  }

  /** The uint32_t a little-endian core loads from four bytes. */
  function Le32Value(b: seq<byte>): nat
    requires |b| == 4
  {
    Join(b[0] as nat, b[1] as nat, b[2] as nat, b[3] as nat)
  }

  /** The four bytes of x, most significant first (network order). */
  function Be32(x: nat): (r: seq<byte>)
    requires x < U32_MODULUS
    ensures |r| == 4
  {
    [Byte3(x) as byte, Byte2(x) as byte, Byte1(x) as byte, Byte0(x) as byte]
  }

  /** bswap_constant_32: the bytes of a uint32_t in reverse order. */
  function Bswap32(x: nat): nat
  {
    Join(Byte3(x), Byte2(x), Byte1(x), Byte0(x))
  }

  /** A uint32_t truncated to int16_t. */
  function Int16Of(u: nat): (r: int)
    ensures -0x8000 <= r < 0x8000
  {
    var low := u % 0x1_0000;
    if low < 0x8000 then low else low - 0x1_0000
  }

  /** Swapping twice gives the value back. */
  lemma BswapTwice(x: nat)
    requires x < U32_MODULUS
    ensures Bswap32(x) < U32_MODULUS && Bswap32(Bswap32(x)) == x
  {
    ByteOfJoin(Byte3(x), Byte2(x), Byte1(x), Byte0(x));
    JoinOfBytes(x);
  }

  /** The header read_all_attr stores is the length in network order. */
  lemma HeaderIsBigEndian(x: nat)
    requires x < U32_MODULUS
    ensures Bswap32(x) < U32_MODULUS && Le32(Bswap32(x)) == Be32(x)
  {
    ByteOfJoin(Byte3(x), Byte2(x), Byte1(x), Byte0(x));
  }

  /** A length in int16_t range survives the 32-bit wrap and the truncation back. */
  lemma Int16OfWrap(len: int)
    requires -0x8000 <= len < 0x8000
    ensures Int16Of(Wrap32(len)) == len
  {
    if len < 0 {
      assert Wrap32(len) == len + U32_MODULUS;
      assert (len + U32_MODULUS) % 0x1_0000 == len + 0x1_0000;
    }
  }

  /** Loading the stored header and swapping it gives back the length. */
  lemma HeaderRoundTrip(len: int)
    requires -0x8000 <= len < 0x8000
    ensures Bswap32(Wrap32(len)) < U32_MODULUS
    ensures Int16Of(Bswap32(Le32Value(Le32(Bswap32(Wrap32(len)))))) == len
  {
    var x := Wrap32(len);
    BswapTwice(x);
    JoinOfBytes(Bswap32(x));
    Int16OfWrap(len);
  }

  /** The writes for one attribute at offset at: the swapped length, then the text and its NUL when the length is not negative. */
  function WriteRecord(b: seq<byte>, at: nat, s: Shown): (r: seq<byte>)
    requires at + Span(s) <= |b|
    ensures |r| == |b|
  {
    var h := Put(b, at, Le32(Bswap32(Wrap32(s.length))));
    if s.length >= 0 then Put(h, at + 4, s.text + ['\0']) else h
  }

  /** The buffer after the attributes are packed in order from offset 0. */
  function PackImage(b: seq<byte>, rs: seq<Shown>): (r: seq<byte>)
    requires Fits(rs, |b|)
    ensures |r| == |b|
  {
    if rs == [] then b
    else WriteRecord(PackImage(b, rs[..|rs| - 1]), PackedSize(rs[..|rs| - 1]), rs[|rs| - 1])
  }

  /** Writing from offset at on leaves the bytes below at. */
  lemma WriteRecordKeeps(b: seq<byte>, at: nat, s: Shown, m: nat)
    requires at + Span(s) <= |b| && m <= at
    ensures WriteRecord(b, at, s)[..m] == b[..m]
  {
    var h := Put(b, at, Le32(Bswap32(Wrap32(s.length))));
    assert h[..m] == b[..m];
    if s.length >= 0 {
      assert Put(h, at + 4, s.text + ['\0'])[..m] == h[..m];
    }
  }

  /** The bytes below offset m are not touched by the writes of the attributes that start at m or later. */
  lemma {:induction false} PackKeepsPrefix(b: seq<byte>, rs: seq<Shown>, k: nat, m: nat)
    requires Fits(rs, |b|) && k <= |rs|
    requires m <= PackedSize(rs[..k]) && m <= |b|
    ensures Fits(rs[..k], |b|)
    ensures PackImage(b, rs)[..m] == PackImage(b, rs[..k])[..m]
    decreases |rs|
  {
    FitsPrefix(rs, k, |b|);
    if k < |rs| {
      var rs' := rs[..|rs| - 1];
      assert rs'[..k] == rs[..k];
      PackedSizeGrows(rs', k);
      PackKeepsPrefix(b, rs', k, m);
      WriteRecordKeeps(PackImage(b, rs'), PackedSize(rs'), rs[|rs| - 1], m);
    } else {
      assert rs[..k] == rs;
    }
  }

  /** An attribute the decoder can give back: its text is exactly its length, and the length fits int16_t. */
  predicate WellFormed(s: Shown)
  {
    && -0x8000 <= s.length < 0x8000
    && (s.length >= 0 ==> |s.text| == s.length)
    && (s.length < 0 ==> s.text == [])
  }

  /** A write leaves its source at its offset. */
  lemma PutReads(b: seq<byte>, at: nat, src: seq<byte>, lo: nat, hi: nat)
    requires at + |src| <= |b| && at <= lo <= hi <= at + |src|
    ensures Put(b, at, src)[lo..hi] == src[lo - at..hi - at]
  {
  }

  /** A record write leaves the header at its offset and the text right after it. */
  lemma WriteRecordReads(b: seq<byte>, at: nat, s: Shown)
    requires at + Span(s) <= |b|
    ensures WriteRecord(b, at, s)[at..at + 4] == Le32(Bswap32(Wrap32(s.length)))
    ensures s.length >= 0 ==> WriteRecord(b, at, s)[at + 4..at + 4 + |s.text|] == s.text
  {
    var hd := Le32(Bswap32(Wrap32(s.length)));
    var h := Put(b, at, hd);
    PutReads(b, at, hd, at, at + 4);
    if s.length >= 0 {
      var src := s.text + ['\0'];
      assert Put(h, at + 4, src)[..at + 4] == h[..at + 4];
      assert Put(h, at + 4, src)[at..at + 4] == h[at..at + 4];
      PutReads(h, at + 4, src, at + 4, at + 4 + |s.text|);
      assert src[..|s.text|] == s.text;
    }
  }

  /** Buffer f holds attribute s at offset at: its header, then (for a non-negative length) its text. */
  predicate HoldsRecord(f: seq<byte>, at: nat, s: Shown)
  {
    && at + 4 <= |f|
    && f[at..at + 4] == Le32(Bswap32(Wrap32(s.length)))
    && TextAt(f, at, s)
  }

  /** For a non-negative length, the text of s follows the header at offset at. */
  predicate TextAt(f: seq<byte>, at: nat, s: Shown)
  {
    s.length >= 0 ==> at + 4 + s.length <= |f| && f[at + 4..at + 4 + s.length] == s.text
  }

  /** A buffer that agrees with a record write below the record's end holds that record. */
  lemma RecordSurvives(f: seq<byte>, prev: seq<byte>, at: nat, s: Shown, m: nat)
    requires at + Span(s) <= |prev| && WellFormed(s)
    requires m == at + 4 + (if s.length >= 0 then s.length else 0) && m <= |f|
    requires f[..m] == WriteRecord(prev, at, s)[..m]
    ensures HoldsRecord(f, at, s)
  {
    var g := WriteRecord(prev, at, s);
    WriteRecordReads(prev, at, s);
    assert f[at..at + 4] == f[..m][at..at + 4] == g[..m][at..at + 4] == g[at..at + 4];
    if s.length >= 0 {
      assert f[at + 4..m] == f[..m][at + 4..m] == g[..m][at + 4..m] == g[at + 4..m];
    }
  }

  /** Attribute k sits at its offset in the packed buffer: its header, then its text. */
  lemma {:induction false} RecordInImage(b: seq<byte>, rs: seq<Shown>, k: nat)
    requires Fits(rs, |b|) && k < |rs| && WellFormed(rs[k])
    ensures HoldsRecord(PackImage(b, rs), PackedSize(rs[..k]), rs[k])
  {
    var pre := rs[..k + 1];
    assert pre[..k] == rs[..k];
    assert pre[k] == rs[k];
    FitsPrefix(rs, k + 1, |b|);
    var at := PackedSize(rs[..k]);
    var s := rs[k];
    var m := at + 4 + (if s.length >= 0 then s.length else 0);
    PackKeepsPrefix(b, rs, k + 1, m);
    var prev := PackImage(b, rs[..k]);
    assert PackImage(b, pre) == WriteRecord(prev, at, s);
    RecordSurvives(PackImage(b, rs), prev, at, s, m);
  }

  /** The length an attribute header at offset at gives: swapped, then truncated to int16_t. */
  function HeaderAt(b: seq<byte>, at: nat): int
    requires at + 4 <= |b|
  {
    Int16Of(Bswap32(Le32Value(b[at..at + 4])))
  }

  /** A header written for a length in int16_t range reads back as that length. */
  lemma HeaderAtHolds(f: seq<byte>, at: nat, s: Shown)
    requires HoldsRecord(f, at, s) && WellFormed(s)
    ensures HeaderAt(f, at) == s.length
  {
    HeaderRoundTrip(s.length);
  }

  /**
   * One attribute of the corrected write_all_attr's decoding at offset at:
   * its length loaded from the header, swapped and truncated to int16_t, its
   * text the bytes after the header. None when the header or the text runs
   * past the buffer.
   */
  function RecordAt(b: seq<byte>, at: nat): Option<Shown>
  {
    if at + 4 > |b| then None else RecordWith(b, at, HeaderAt(b, at))
  }

  /** The attribute at offset at once its header has given len. */
  function RecordWith(b: seq<byte>, at: nat, len: int): Option<Shown>
    requires at + 4 <= |b|
  {
    if len >= 0 && at + 4 + len > |b| then None
    else Some(Shown(len, if len >= 0 then b[at + 4..at + 4 + len] else []))
  }

  /** The decoder: n attributes from offset at, the offset moving as the packing moved it. */
  function Unpack(b: seq<byte>, at: nat, n: nat): Option<seq<Shown>>
    decreases n
  {
    if n == 0 then Some([])
    else
      match RecordAt(b, at)
      case None => None
      case Some(s) =>
        match Unpack(b, at + Advance(s), n - 1)
        case None => None
        case Some(rest) => Some([s] + rest)
  }

  /** A buffer that holds a well-formed attribute at an offset decodes it there. */
  lemma RecordAtHolds(f: seq<byte>, at: nat, s: Shown)
    requires HoldsRecord(f, at, s) && WellFormed(s)
    ensures RecordAt(f, at) == Some(s)
  {
    HeaderAtHolds(f, at, s);
    RecordWithText(f, at, s);
  }

  /** A well-formed attribute whose text follows its header is what its length reads back. */
  lemma RecordWithText(f: seq<byte>, at: nat, s: Shown)
    requires at + 4 <= |f| && TextAt(f, at, s) && WellFormed(s)
    ensures RecordWith(f, at, s.length) == Some(s)
  {
  }

  /** The decoder reads one well-formed attribute back from a buffer that holds it. */
  lemma {:induction false} UnpackStep(f: seq<byte>, at: nat, s: Shown, n: nat, rest: seq<Shown>)
    requires HoldsRecord(f, at, s) && WellFormed(s)
    requires Unpack(f, at + Advance(s), n) == Some(rest)
    ensures Unpack(f, at, n + 1) == Some([s] + rest)
  {
    RecordAtHolds(f, at, s);
  }

  /** Buffer f holds the attributes rs one after the other from offset at, each well-formed. */
  predicate HeldFrom(f: seq<byte>, at: nat, rs: seq<Shown>)
    decreases |rs|
  {
    rs == [] || (WellFormed(rs[0]) && HoldsRecord(f, at, rs[0]) && HeldFrom(f, at + Advance(rs[0]), rs[1..]))
  }

  /** Decoding a buffer that holds attributes one after the other from an offset gives them back. */
  lemma {:induction false} UnpackHeld(f: seq<byte>, at: nat, rs: seq<Shown>)
    requires HeldFrom(f, at, rs)
    ensures Unpack(f, at, |rs|) == Some(rs)
    decreases |rs|
  {
    if rs != [] {
      UnpackHeld(f, at + Advance(rs[0]), rs[1..]);
      UnpackStep(f, at, rs[0], |rs| - 1, rs[1..]);
      assert rs == [rs[0]] + rs[1..];
    }
  }

  /** Packing one more attribute moves the offset by its advance. */
  lemma {:induction false} PackedSizeNext(rs: seq<Shown>, k: nat)
    requires k < |rs|
    ensures PackedSize(rs[..k + 1]) == PackedSize(rs[..k]) + Advance(rs[k])
  {
    assert rs[..k + 1][..k] == rs[..k];
  }

  /** Attributes that each sit at their packed offset are held one after the other from attribute k on. */
  lemma {:induction false} PackedRecordsHeld(f: seq<byte>, rs: seq<Shown>, k: nat)
    requires k <= |rs|
    requires forall i :: k <= i < |rs| ==> WellFormed(rs[i]) && HoldsRecord(f, PackedSize(rs[..i]), rs[i])
    ensures HeldFrom(f, PackedSize(rs[..k]), rs[k..])
    decreases |rs| - k
  {
    if k < |rs| {
      PackedRecordsHeld(f, rs, k + 1);
      PackedSizeNext(rs, k);
      assert rs[k..][0] == rs[k] && rs[k..][1..] == rs[k + 1..];
    }
  }

  /**
   * Packing round-trips: decoding the packed buffer with the header
   * lengths, as write_all_attr is meant to, gives back every attribute.
   */
  lemma UnpackPack(b: seq<byte>, rs: seq<Shown>)
    requires Fits(rs, |b|)
    requires forall i :: 0 <= i < |rs| ==> WellFormed(rs[i])
    ensures Unpack(PackImage(b, rs), 0, |rs|) == Some(rs)
  {
    forall i | 0 <= i < |rs|
      ensures HoldsRecord(PackImage(b, rs), PackedSize(rs[..i]), rs[i])
    {
      RecordInImage(b, rs, i);
    }
    assert rs[..0] == [] && rs[0..] == rs;
    PackedRecordsHeld(PackImage(b, rs), rs, 0);
    UnpackHeld(PackImage(b, rs), 0, rs);
  }

  /** memcpy / sprintf into buf at an offset. */
  method Store(buf: array<byte>, at: nat, src: seq<byte>)
    requires at + |src| <= buf.Length
    modifies buf
    ensures buf[..] == Put(old(buf[..]), at, src)
  {
    forall k | 0 <= k < |src| {
      buf[at + k] := src[k];
    }
    assert buf[..] == old(buf[..at]) + src + old(buf[at + |src|..]);
  }

  /**
   * One attribute of iio_read_all_attr: the swapped 32-bit length at offset
   * at, then, unless the length is negative, the text (sprintf, with its
   * NUL); the next offset is past the text rounded up to a multiple of 4.
   */
  method StoreRecord(buf: array<byte>, at: nat, s: Shown) returns (next: nat)
    requires at + Span(s) <= buf.Length
    modifies buf
    ensures next == at + Advance(s)
    ensures buf[..] == WriteRecord(old(buf[..]), at, s)
  {
    Store(buf, at, Le32(Bswap32(Wrap32(s.length))));
    next := at + 4;
    if s.length >= 0 {
      Store(buf, next, s.text + ['\0']);
      next := next + Pad4(s.length);
    }
  }

  /**
   * iio_read_all_attr: every attribute packed one after the other from
   * offset 0; the result is the packed size, a multiple of 4.
   */
  method ReadAllAttr(buf: array<byte>, shown: seq<Shown>) returns (j: int)
    requires Fits(shown, buf.Length)
    requires PackedSize(shown) < 0x8000
    requires forall i :: 0 <= i < |shown| ==> CString(shown[i].text)
    modifies buf
    ensures j == PackedSize(shown) && j % 4 == 0
    ensures buf[..] == PackImage(old(buf[..]), shown)
  {
    var i := 0;
    j := 0;
    while i < |shown|
      invariant 0 <= i <= |shown|
      invariant Fits(shown[..i], buf.Length)
      invariant j == PackedSize(shown[..i])
      invariant buf[..] == PackImage(old(buf[..]), shown[..i])
    {
      assert shown[..i + 1][..i] == shown[..i];
      FitsPrefix(shown, i + 1, buf.Length);
      j := StoreRecord(buf, j, shown[i]);
      i := i + 1;
    }
    assert shown[..i] == shown;
  }

  /**
   * write_all_attr as written loads each length from the value of the
   * pointer buf + j, swapped, instead of from the header stored there.
   */
  function AsWrittenLength(bufAddress: nat, j: nat): int
  {
    Int16Of(Bswap32(Wrap32(bufAddress + j)))
  }

  /** With buf at address 0x1000, the first length write_all_attr loads is 0. */
  lemma PointerAsLength()
    ensures AsWrittenLength(0x1000, 0) == 0
  {
    assert Wrap32(0x1000) == 0x1000;
    assert 0x1000 / 256 == 0x10;
    assert Bswap32(0x1000) == Join(0, 0, 0x10, 0) == 0x10_0000;
  }

  /**
   * A packed buffer at 0x1000 whose first attribute has a non-empty value:
   * its header says the value's length, but the length write_all_attr
   * hands to store is 0.
   */
  lemma WriteAllReadsPointer(b: seq<byte>, rs: seq<Shown>)
    requires Fits(rs, |b|) && |rs| > 0 && WellFormed(rs[0]) && rs[0].length != 0
    ensures HeaderAt(PackImage(b, rs), 0) == rs[0].length
    ensures AsWrittenLength(0x1000, 0) != HeaderAt(PackImage(b, rs), 0)
  {
    assert rs[..0] == [];
    RecordInImage(b, rs, 0);
    HeaderAtHolds(PackImage(b, rs), 0, rs[0]);
    PointerAsLength();
  }



  // ---------------------------------------------------------------------
  // Devices, channels and attributes as the iio_device tables list them
  // ---------------------------------------------------------------------

  /** An iio_channel: its name and the names in its NULL-terminated attributes table. */
  datatype IioChannel = IioChannel(name: Name, attributes: seq<Name>)

  /** An iio_device: its channels and its device attributes. */
  datatype IioDevice = IioDevice(channels: seq<IioChannel>, attributes: seq<Name>)

  /** The channel names, in table order. */
  function ChannelNames(chs: seq<IioChannel>): (r: seq<Name>)
    ensures |r| == |chs| && forall i :: 0 <= i < |chs| ==> r[i] == chs[i].name
  {
    if chs == [] then [] else ChannelNames(chs[..|chs| - 1]) + [chs[|chs| - 1].name]
  }

  // ---------------------------------------------------------------------
  // The interface registry: iio_register, iio_get_interface,
  // iio_supporter_dev, iio_open_dev and iio_get_mask
  // ---------------------------------------------------------------------

  /** 0xFFFFFFFF >> (32 - n): the mask of channels 0 to n - 1. */
  function ChannelMask(n: bv16): (m: bv32)
    requires 1 <= n <= 32
    ensures m == (1 << n) - 1
    ensures m >> n == 0
  {
    0xFFFF_FFFF >> (32 - n)
  }

  /** A mask has a bit outside the channel mask exactly when it has a bit at n or above. */
  lemma MaskOutside(mask: bv32, n: bv16)
    requires 1 <= n <= 32
    ensures mask & !ChannelMask(n) != 0 <==> mask >> n != 0
  {
  }

  /** struct iio_interface: a registered device's name, channel count, iio_device and channel mask. */
  class IioInterface {
    const name: Name
    const numChannels: bv16
    const device: Option<IioDevice>
    var chMask: bv32

    /** The calloc'd interface with the fields iio_register fills in; the mask starts at 0. */
    constructor(name: Name, numChannels: bv16, device: Option<IioDevice>)
      ensures this.name == name && this.numChannels == numChannels && this.device == device
      ensures chMask == 0
    {
      this.name := name;
      this.numChannels := numChannels;
      this.device := device;
      chMask := 0;
    }

    /** The mask check of iio_open_dev on this interface. */
    method Open(mask: bv32) returns (ret: int)
      requires 1 <= numChannels <= 32
      modifies this
      ensures ret == 0 || ret == -ENOENT
      ensures ret == -ENOENT <==> mask >> numChannels != 0
      ensures ret == 0 ==> chMask == ChannelMask(numChannels)
      ensures ret != 0 ==> unchanged(this)
    {
      var m := ChannelMask(numChannels);
      MaskOutside(mask, numChannels);
      if mask & !m != 0 {
        return -ENOENT;
      }
      chMask := m;
      ret := 0;
    }
  }

  /** The names of the registered interfaces, in slot order. */
  function NamesOf(t: seq<IioInterface?>): (r: seq<Name>)
    requires forall i :: 0 <= i < |t| ==> t[i] != null
    ensures |r| == |t| && forall i :: 0 <= i < |t| ==> r[i] == t[i].name
  {
    if t == [] then [] else NamesOf(t[..|t| - 1]) + [t[|t| - 1].name]
  }

  /** What realloc keeps of the old table: its slots, or n uninitialised ones (NULL here) when it was NULL. */
  function Kept(t: Option<seq<IioInterface?>>, n: nat): (r: seq<IioInterface?>)
    requires t.Some? ==> |t.value| == n
    ensures |r| == n
  {
    if t.Some? then t.value else seq(n, _ => null)
  }

  /** A name registered twice is found at its first slot; a new name at the slot just appended. */
  lemma {:induction false} FirstRegisteredWins(name: Name, names: seq<Name>, added: Name)
    ensures name in names ==> IndexOf(name, names + [added]) == IndexOf(name, names)
    ensures name !in names && added == name ==> IndexOf(name, names + [added]) == |names|
  {
    if names != [] {
      assert (names + [added])[1..] == names[1..] + [added];
      FirstRegisteredWins(name, names[1..], added);
    }
  }

  /**
   * After an interface is appended, every name already registered is still
   * found at its old slot, and a name registered for the first time is found
   * at the new slot.
   */
  lemma RegisteredIsFound(t: seq<IioInterface?>, iface: IioInterface, name: Name)
    requires forall i :: 0 <= i < |t| ==> t[i] != null
    ensures name in NamesOf(t) ==> IndexOf(name, NamesOf(t + [iface])) == IndexOf(name, NamesOf(t))
    ensures name !in NamesOf(t) && iface.name == name ==> IndexOf(name, NamesOf(t + [iface])) == |t|
  {
    assert (t + [iface])[..|t|] == t;
    FirstRegisteredWins(name, NamesOf(t), iface.name);
  }

  /**
   * The static iio_interfaces: NULL until the first iio_register (created),
   * then its table of interface pointers (NULL after a failed allocation)
   * and num_interfaces.
   */
  class Registry {
    var created: bool
    var count: nat
    var table: Option<seq<IioInterface?>>

    constructor()
      ensures !created && count == 0 && table == None
    {
      created := false;
      count := 0;
      table := None;
    }

    /** num_interfaces fits its uint8_t; the table, when there is one, has that many slots. */
    predicate Valid()
      reads this
    {
      && count < 0x100
      && (!created ==> count == 0 && table.None?)
      && (table.Some? ==> |table.value| == count)
    }

    /** Every slot holds an interface, as the lookups, which dereference each one, require. */
    predicate Complete()
      reads this
    {
      && Valid() && created && table.Some?
      && forall i :: 0 <= i < |table.value| ==> table.value[i] != null
    }

    function Names(): (r: seq<Name>)
      reads this
      requires Complete()
      ensures |r| == count
    {
      NamesOf(table.value)
    }

    /** The interface iio_get_interface finds: the first with that name, or null. */
    function Find(name: Name): (r: IioInterface?)
      reads this
      requires Complete()
      ensures r == null <==> name !in Names()
      ensures r != null ==> r.name == name && r == table.value[IndexOf(name, Names())]
    {
      var i := IndexOf(name, Names());
      if i < 0 then null else table.value[i]
    }

    /** The interface open_dev may update: the one found, if any. */
    function Found(name: Name): set<IioInterface>
      reads this
      requires Complete()
    {
      var f := Find(name);
      if f == null then {} else {f}
    }

    /**
     * iio_register: on the first call allocate the registry and a one-slot
     * table, later grow the table by one slot (num_interfaces is bumped
     * first), then allocate the interface and store it in the last slot.
     * allocs is how many of these allocations succeed; each failure returns
     * -ENOMEM and leaves the state reached so far.
     */
    method Register(name: Name, numCh: bv16, device: Option<IioDevice>, allocs: nat)
      returns (ret: int, iface: IioInterface?)
      requires Valid() && count < 0xFF
      modifies this
      ensures Valid()
      ensures ret == 0 <==> allocs >= (if old(created) then 2 else 3)
      ensures ret == 0 || ret == -ENOMEM
      ensures ret != 0 ==> iface == null
      ensures ret == 0 ==> fresh(iface) && iface.name == name && iface.numChannels == numCh
                           && iface.device == device && iface.chMask == 0
      ensures !old(created) && allocs == 0 ==> !created && count == 0 && table == None
      ensures old(created) || allocs >= 1 ==> created && count == old(count) + 1
      ensures allocs >= (if old(created) then 1 else 2) ==> table == Some(Kept(old(table), old(count)) + [iface])
      ensures (old(created) && allocs == 0) || (!old(created) && allocs == 1) ==> table == None
    {
      ghost var kept := Kept(table, count);
      var left := allocs;
      if !created {
        assert kept == [];
        if left == 0 {
          return -ENOMEM, null;
        }
        left := left - 1;
        created := true;
        count := 1;
        if left == 0 {
          return -ENOMEM, null;
        }
        left := left - 1;
        table := Some([null]);
        assert kept + [null] == [null];
      } else {
        count := count + 1;
        if left == 0 {
          table := None;
          return -ENOMEM, null;
        }
        left := left - 1;
        table := Some(Kept(table, count - 1) + [null]);
      }
      assert table == Some(kept + [null]);
      if left == 0 {
        return -ENOMEM, null;
      }
      iface := new IioInterface(name, numCh, device);
      table := Some(table.value[count - 1 := iface]);
      assert table.value == kept + [iface];
      ret := 0;
    }

    /** iio_get_interface: the first of the num_interfaces slots whose name matches. */
    method GetInterface(name: Name) returns (iface: IioInterface?)
      requires Complete()
      ensures iface == Find(name)
    {
      var i := 0;
      while i < count
        invariant 0 <= i <= count
        invariant forall k :: 0 <= k < i ==> Names()[k] != name
      {
        if table.value[i].name == name {
          return table.value[i];
        }
        i := i + 1;
      }
      return null;
    }

    /** iio_supporter_dev: whether an interface of that name is registered. */
    method SupporterDev(name: Name) returns (found: bool)
      requires Complete()
      ensures found <==> name in Names()
    {
      var iface := GetInterface(name);
      found := iface != null;
    }

    /**
     * iio_open_dev: -ENODEV for an unknown device, -ENOENT when the mask
     * asks for a channel at or above num_channels; otherwise the interface
     * keeps the mask of all its channels (not the one asked for). A channel
     * count outside 1 to 32 would shift by an undefined amount.
     */
    method OpenDev(name: Name, mask: bv32) returns (ret: int)
      requires Complete()
      requires Find(name) != null ==> 1 <= Find(name).numChannels <= 32
      modifies Found(name)
      ensures ret == -ENODEV <==> name !in Names()
      ensures ret == -ENOENT <==> name in Names() && mask >> Find(name).numChannels != 0
      ensures ret == 0 || ret == -ENODEV || ret == -ENOENT
      ensures ret == 0 ==> Find(name).chMask == ChannelMask(Find(name).numChannels)
      ensures ret != 0 ==> unchanged(Found(name))
    {
      var supported := SupporterDev(name);
      if !supported {
        return -ENODEV;
      }
      var dev := GetInterface(name);
      ret := dev.Open(mask);
    }

    /** iio_get_mask: -ENODEV for an unknown device, otherwise the mask of all its channels. */
    method GetMask(name: Name) returns (ret: int, mask: bv32)
      requires Complete()
      requires Find(name) != null ==> 1 <= Find(name).numChannels <= 32
      ensures ret == -ENODEV <==> name !in Names()
      ensures ret == 0 <==> name in Names()
      ensures ret == 0 ==> mask == ChannelMask(Find(name).numChannels)
    {
      var supported := SupporterDev(name);
      if !supported {
        return -ENODEV, 0;
      }
      var dev := GetInterface(name);
      mask := ChannelMask(dev.numChannels);
      ret := 0;
    }
  }

  // ---------------------------------------------------------------------
  // iio_rd_wr_attribute and iio_rd_wr_channel_attribute
  // ---------------------------------------------------------------------

  /** struct iio_ch_info: the channel number parsed from the channel name, and its direction. */
  datatype ChInfo = ChInfo(chNum: nat, chOut: bool)

  /**
   * Which callback an attribute read or write reaches; is_write then picks
   * the store callback of that entry and a read picks show. ChannelAt
   * carries an index the table may not have: the channel id as the code
   * computed it.
   */
  datatype Access =
    | NoEntry
    | AllDeviceAttributes
    | DeviceAttribute(id: nat)
    | AllChannelAttributes(channel: nat, info: ChInfo)
    | ChannelAttribute(channel: nat, id: nat, info: ChInfo)
    | ChannelAt(channelId: int)

  /**
   * iio_rd_wr_channel_attribute on the channel at index c: an empty
   * attribute name means every attribute of the channel, otherwise the
   * first attribute of that name, or -ENOENT.
   */
  function ChannelRoute(chan: IioChannel, c: nat, channel: Name, attr: Name, chOut: bool): (a: Access)
    ensures a.NoEntry? <==> attr != [] && attr !in chan.attributes
    ensures a.AllChannelAttributes? <==> attr == []
    ensures a.AllChannelAttributes? ==> a == AllChannelAttributes(c, ChInfo(ChannelNumberOf(channel), chOut))
    ensures a.ChannelAttribute? ==>
      && a.channel == c && a.info == ChInfo(ChannelNumberOf(channel), chOut)
      && a.id < |chan.attributes| && chan.attributes[a.id] == attr
      && forall k :: 0 <= k < a.id ==> chan.attributes[k] != attr
  {
    var info := ChInfo(ChannelNumberOf(channel), chOut);
    if attr == [] then AllChannelAttributes(c, info)
    else
      var id := LookupId(attr, chan.attributes);
      if id >= 0 then ChannelAttribute(c, id, info) else NoEntry
  }

  /**
   * iio_rd_wr_attribute, with the channel id checked: -ENOENT without an
   * iio_device; an empty channel name addresses the device attributes (all
   * of them for an empty attribute name, else the first of that name);
   * otherwise the first channel of that name, or -ENOENT when there is none.
   */
  function Route(device: Option<IioDevice>, channel: Name, attr: Name, chOut: bool): (a: Access)
    ensures device.None? ==> a == NoEntry
    ensures !a.ChannelAt?
    ensures device.Some? && channel == [] ==>
      && (a == AllDeviceAttributes <==> attr == [])
      && (a == NoEntry <==> attr != [] && attr !in device.value.attributes)
    ensures a.DeviceAttribute? ==>
      && device.Some? && channel == []
      && a.id < |device.value.attributes| && device.value.attributes[a.id] == attr
      && forall k :: 0 <= k < a.id ==> device.value.attributes[k] != attr
    ensures device.Some? && channel != [] && channel !in ChannelNames(device.value.channels) ==> a == NoEntry
    ensures a.AllChannelAttributes? || a.ChannelAttribute? ==>
      && device.Some? && channel != []
      && a.channel == IndexOf(channel, ChannelNames(device.value.channels))
      && device.value.channels[a.channel].name == channel
    ensures device.Some? && channel == [] && attr != [] && attr in device.value.attributes ==>
      a == DeviceAttribute(IndexOf(attr, device.value.attributes))
    ensures device.Some? && channel != [] && channel in ChannelNames(device.value.channels) ==>
      var c := IndexOf(channel, ChannelNames(device.value.channels));
      a == ChannelRoute(device.value.channels[c], c, channel, attr, chOut)
  {
    if device.None? then NoEntry
    else if channel == [] then
      if attr == [] then AllDeviceAttributes
      else
        var id := LookupId(attr, device.value.attributes);
        if id < 0 then NoEntry else DeviceAttribute(id)
    else
      var c := LookupId(channel, ChannelNames(device.value.channels));
      if c < 0 then NoEntry
      else ChannelRoute(device.value.channels[c], c, channel, attr, chOut)
  }

  /**
   * iio_rd_wr_attribute as written: the channel id goes to the channel path
   * unchecked, so an unknown channel name indexes the channel table at
   * -ENOENT (or at -EINVAL when the table is empty).
   */
  function RouteAsWritten(device: Option<IioDevice>, channel: Name, attr: Name, chOut: bool): Access
  {
    if device.None? || channel == [] then Route(device, channel, attr, chOut)
    else
      var c := LookupId(channel, ChannelNames(device.value.channels));
      if c < 0 then ChannelAt(c)
      else ChannelRoute(device.value.channels[c], c, channel, attr, chOut)
  }

  /** The two agree on every name the device has; an unknown channel name is read from before the table. */
  lemma NegativeChannelIndexed(device: IioDevice, channel: Name, attr: Name, chOut: bool)
    requires channel != [] && channel !in ChannelNames(device.channels)
    ensures Route(Some(device), channel, attr, chOut) == NoEntry
    ensures RouteAsWritten(Some(device), channel, attr, chOut).ChannelAt?
    ensures RouteAsWritten(Some(device), channel, attr, chOut).channelId < 0
  {
  }

  /** Where the channel name is known, or no channel is named, the corrected routing is the code's. */
  lemma RouteAgreesOnKnownChannels(device: Option<IioDevice>, channel: Name, attr: Name, chOut: bool)
    requires device.Some? && channel != [] ==> channel in ChannelNames(device.value.channels)
    ensures RouteAsWritten(device, channel, attr, chOut) == Route(device, channel, attr, chOut)
  {
  }

  /**
   * iio_rd_wr_attribute with iio_rd_wr_channel_attribute, the lookups done
   * by GetId and the channel number by ChannelNumber, and the channel id
   * checked before it is used.
   */
  method RdWrAttribute(device: Option<IioDevice>, channel: Name, attr: Name, chOut: bool)
    returns (a: Access)
    ensures a == Route(device, channel, attr, chOut)
  {
    if device.None? {
      return NoEntry;
    }
    var dev := device.value;
    if channel == [] {
      if attr == [] {
        return AllDeviceAttributes;
      }
      var id := GetId(attr, dev.attributes);
      if id < 0 {
        return NoEntry;
      }
      return DeviceAttribute(id);
    }
    var c := GetId(channel, ChannelNames(dev.channels));
    if c < 0 {
      return NoEntry;
    }
    var chNum := ChannelNumber(channel);
    var info := ChInfo(chNum, chOut);
    var chan := dev.channels[c];
    if attr == [] {
      return AllChannelAttributes(c, info);
    }
    var id := GetId(attr, chan.attributes);
    if id >= 0 {
      return ChannelAttribute(c, id, info);
    }
    return NoEntry;
  }
}

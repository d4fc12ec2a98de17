/**
 * The base64url encoding of section 5 of RFC 4648, the padding strip the
 * issuer applies after it, and the integer-to-octets conversion that turns
 * RSA public numbers into the `Base64urlUInt` form of section 2 of RFC 7518.
 */
module Base64Url {
  import opened Values

  /** The URL-safe alphabet of section 5 of RFC 4648 (no padding character). */
  predicate IsUrlSafeChar(c: char) {
    ('A' <= c <= 'Z') || ('a' <= c <= 'z') || ('0' <= c <= '9') || c == '-' || c == '_'
  }

  /** A 6-bit group, the value one symbol carries. */
  type sextet = x: nat | x < 64

  /** Symbol i of the URL-safe alphabet. */
  function Symbol(i: sextet): (c: char)
    ensures IsUrlSafeChar(c)
  {
    if i < 26 then ('A' as int + i) as char
    else if i < 52 then ('a' as int + (i - 26)) as char
    else if i < 62 then ('0' as int + (i - 52)) as char
    else if i == 62 then '-'
    else '_'
  }

  /** The value of a symbol. */
  function SymbolValue(c: char): sextet
    requires IsUrlSafeChar(c)
  {
    if 'A' <= c <= 'Z' then c as int - 'A' as int
    else if 'a' <= c <= 'z' then c as int - 'a' as int + 26
    else if '0' <= c <= '9' then c as int - '0' as int + 52
    else if c == '-' then 62
    else 63
  }

  /** SymbolValue inverts Symbol, so distinct sextets have distinct symbols. */
  lemma SymbolInjective(i: sextet)
    ensures SymbolValue(Symbol(i)) == i
  {
  }

  /** The 6-bit groups of section 4 of RFC 4648: each group of three octets
      gives four sextets; a final group of one or two octets gives two or
      three, its missing low bits zero. */
  function Sextets(b: seq<byte>): seq<sextet>
    decreases |b|
  {
    if |b| == 0 then []
    else if |b| == 1 then [b[0] / 4, b[0] % 4 * 16]
    else if |b| == 2 then [b[0] / 4, b[0] % 4 * 16 + b[1] / 16, b[1] % 16 * 4]
    else [b[0] / 4, b[0] % 4 * 16 + b[1] / 16, b[1] % 16 * 4 + b[2] / 64, b[2] % 64] + Sextets(b[3..])
  }

  /** The symbols of a sequence of sextets. */
  function Symbols(v: seq<sextet>): (s: string)
    ensures |s| == |v|
  {
    seq(|v|, i requires 0 <= i < |v| => Symbol(v[i]))
  }

  /** Number of `=` the encoder appends for n octets. */
  function PadLength(n: nat): nat {
    if n % 3 == 0 then 0 else if n % 3 == 1 then 2 else 1
  }

  /** `base64.urlsafe_b64encode`: the symbols of the sextets, padded with `=`
      to a multiple of four characters. */
  function Encode(b: seq<byte>): string {
    Symbols(Sextets(b)) + seq(PadLength(|b|), _ => '=')
  }

  /** `s.rstrip(c)`: drop every trailing c. */
  function RStrip(s: string, c: char): string
    decreases |s|
  {
    if |s| > 0 && s[|s| - 1] == c then RStrip(s[..|s| - 1], c) else s
  }

  /** `urlsafe_b64encode(b).rstrip('=')`, the form the issuer publishes. */
  function EncodeNoPad(b: seq<byte>): string {
    RStrip(Encode(b), '=')
  }

  /** How a decoder restores the padding that was stripped. */
  function Repad(s: string): string {
    s + seq((4 - |s| % 4) % 4, _ => '=')
  }

  /** The octets of a sequence of sextets: four sextets give three octets,
      a final two or three give one or two; a lone final sextet carries no
      whole octet. */
  function Octets(v: seq<sextet>): seq<byte>
    decreases |v|
  {
    if |v| < 2 then []
    else
      var x: byte := v[0] as int * 4 + v[1] / 16;
      if |v| == 2 then [x]
      else
        var y: byte := v[1] as int % 16 * 16 + v[2] / 4;
        if |v| == 3 then [x, y]
        else
          var z: byte := v[2] as int % 4 * 64 + v[3];
          [x, y, z] + Octets(v[4..])
  }

  /** The values of a run of symbols. */
  function ValuesOf(s: string): (v: seq<sextet>)
    requires forall i :: 0 <= i < |s| ==> IsUrlSafeChar(s[i])
    ensures |v| == |s|
  {
    seq(|s|, i requires 0 <= i < |s| => SymbolValue(s[i]))
  }

  /** Number of `=` at the end of padded text (at most two are padding). */
  function PaddingOf(s: string): nat {
    if |s| >= 2 && s[|s| - 1] == '=' && s[|s| - 2] == '=' then 2
    else if |s| >= 1 && s[|s| - 1] == '=' then 1
    else 0
  }

  /** Decoding of padded base64url text per section 5 of RFC 4648; None for
      text whose length is not a multiple of four or that holds a character
      outside the alphabet before its padding. */
  function Decode(s: string): Option<seq<byte>> {
    if |s| % 4 != 0 then None
    else
      var body := s[..|s| - PaddingOf(s)];
      if forall i :: 0 <= i < |body| ==> IsUrlSafeChar(body[i]) then
        Some(Octets(ValuesOf(body)))
      else None
  }

  lemma {:induction false} SextetsLength(b: seq<byte>)
    ensures |Sextets(b)| == 4 * (|b| / 3) + (if |b| % 3 == 0 then 0 else if |b| % 3 == 1 then 2 else 3)
    decreases |b|
  {
    if |b| >= 3 {
      SextetsLength(b[3..]);
    }
  }

  /** Octets inverts Sextets. */
  lemma {:induction false} OctetsOfSextets(b: seq<byte>)
    ensures Octets(Sextets(b)) == b
    decreases |b|
  {
    if |b| >= 3 {
      var head: seq<sextet> := [b[0] / 4, b[0] % 4 * 16 + b[1] / 16, b[1] % 16 * 4 + b[2] / 64, b[2] % 64];
      var v := Sextets(b);
      assert v == head + Sextets(b[3..]);
      SextetsLength(b[3..]);
      if |b| == 3 {
        assert v == head;
      } else {
        assert v[4..] == Sextets(b[3..]);
        OctetsOfSextets(b[3..]);
      }
      assert b == [b[0], b[1], b[2]] + b[3..];
    } else if |b| == 2 {
      assert b == [b[0], b[1]];
    } else if |b| == 1 {
      assert b == [b[0]];
    }
  }

  lemma RStripUnpadded(t: string, n: nat, c: char)
    requires |t| == 0 || t[|t| - 1] != c
    ensures RStrip(t + seq(n, _ => c), c) == t
    decreases n
  {
    if n > 0 {
      var s := t + seq(n, _ => c);
      assert s[..|s| - 1] == t + seq(n - 1, _ => c);
      RStripUnpadded(t, n - 1, c);
    } else {
      assert t + seq(0, _ => c) == t;
    }
  }

  /** Stripping removes exactly the padding: what is left is the symbols. */
  lemma EncodeNoPadIsSymbols(b: seq<byte>)
    ensures EncodeNoPad(b) == Symbols(Sextets(b))
    ensures Encode(b) == EncodeNoPad(b) + seq(PadLength(|b|), _ => '=')
  {
    var t := Symbols(Sextets(b));
    if |t| > 0 {
      assert IsUrlSafeChar(t[|t| - 1]);
    }
    RStripUnpadded(t, PadLength(|b|), '=');
  }

  /** The unpadded text has only URL-safe symbols (so no `=`), and its length
      is 4 per full group plus 0, 2 or 3 for a final group of 0, 1 or 2 octets. */
  lemma EncodeNoPadShape(b: seq<byte>)
    ensures forall i :: 0 <= i < |EncodeNoPad(b)| ==> IsUrlSafeChar(EncodeNoPad(b)[i])
    ensures '=' !in EncodeNoPad(b)
    ensures |EncodeNoPad(b)| == 4 * (|b| / 3) + (if |b| % 3 == 0 then 0 else if |b| % 3 == 1 then 2 else 3)
  {
    EncodeNoPadIsSymbols(b);
    SextetsLength(b);
  }

  /** The padded encoding has a length that is a multiple of four. */
  lemma EncodeLength(b: seq<byte>)
    ensures |Encode(b)| == 4 * (|b| / 3) + (if |b| % 3 == 0 then 0 else 4)
  {
    SextetsLength(b);
  }

  /** Reading the symbols back gives the sextets. */
  lemma ValuesOfSymbols(v: seq<sextet>)
    ensures ValuesOf(Symbols(v)) == v
  {
    var s := Symbols(v);
    forall i | 0 <= i < |v| ensures SymbolValue(s[i]) == v[i] {
      SymbolInjective(v[i]);
    }
  }

  /** The decoder finds exactly the padding the encoder appended. */
  lemma EncodePadding(b: seq<byte>)
    ensures PaddingOf(Encode(b)) == PadLength(|b|)
    ensures Encode(b)[..|Encode(b)| - PadLength(|b|)] == Symbols(Sextets(b))
  {
    var t := Symbols(Sextets(b));
    var e := Encode(b);
    SextetsLength(b);
    if PadLength(|b|) == 1 {
      assert e[|e| - 2] == t[|t| - 1];
    } else if PadLength(|b|) == 0 && |e| > 0 {
      assert e[|e| - 1] == t[|t| - 1];
    }
  }

  /** Text whose unpadded part is the symbols of v decodes to the octets of v. */
  lemma DecodeSymbols(e: string, v: seq<sextet>)
    requires |e| % 4 == 0 && e[..|e| - PaddingOf(e)] == Symbols(v)
    ensures Decode(e) == Some(Octets(v))
  {
    ValuesOfSymbols(v);
  }

  /** Decoding inverts encoding. */
  lemma DecodeEncode(b: seq<byte>)
    ensures Decode(Encode(b)) == Some(b)
  {
    EncodeLength(b);
    EncodePadding(b);
    DecodeSymbols(Encode(b), Sextets(b));
    OctetsOfSextets(b);
  }

  /** Re-padding the published text and decoding gives back the octets. */
  lemma EncodeNoPadRoundTrip(b: seq<byte>)
    ensures Decode(Repad(EncodeNoPad(b))) == Some(b)
  {
    EncodeNoPadIsSymbols(b);
    SextetsLength(b);
    var s := EncodeNoPad(b);
    assert (4 - |s| % 4) % 4 == PadLength(|b|);
    assert Repad(s) == Encode(b);
    DecodeEncode(b);
  }

  // ---------------------------------------------------------------------
  // Integers as big-endian octets

  function Pow2(k: nat): nat {
    if k == 0 then 1 else 2 * Pow2(k - 1)
  }

  function Pow256(k: nat): nat {
    if k == 0 then 1 else 256 * Pow256(k - 1)
  }

  /** `int.bit_length()` of a non-negative int. */
  function BitLength(n: nat): nat {
    if n == 0 then 0 else 1 + BitLength(n / 2)
  }

  /** `n.to_bytes(len, byteorder='big')` when n fits in len octets. */
  function ToBytes(n: nat, len: nat): (r: seq<byte>)
    ensures |r| == len
  {
    if len == 0 then [] else ToBytes(n / 256, len - 1) + [n % 256]
  }

  /** The value of a big-endian octet sequence. */
  function FromBytes(s: seq<byte>): nat {
    if |s| == 0 then 0 else FromBytes(s[..|s| - 1]) * 256 + s[|s| - 1]
  }

  lemma {:induction false} BitLengthBounds(n: nat)
    ensures n < Pow2(BitLength(n))
    ensures n > 0 ==> Pow2(BitLength(n) - 1) <= n
  {
    if n > 0 {
      BitLengthBounds(n / 2);
    }
  }

  lemma {:induction false} Pow2Monotone(i: nat, j: nat)
    requires i <= j
    ensures Pow2(i) <= Pow2(j)
    decreases j
  {
    if i < j {
      Pow2Monotone(i, j - 1);
    }
  }

  lemma {:induction false} Pow2Bytes(k: nat)
    ensures Pow2(8 * k) == Pow256(k)
  {
    if k > 0 {
      Pow2Bytes(k - 1);
      assert Pow2(8 * k) == 256 * Pow2(8 * (k - 1)) by {
        var m := 8 * (k - 1);
        assert 8 * k == m + 8;
        assert Pow2(m + 8) == 2 * Pow2(m + 7) == 4 * Pow2(m + 6) == 8 * Pow2(m + 5) == 16 * Pow2(m + 4);
        assert Pow2(m + 4) == 2 * Pow2(m + 3) == 4 * Pow2(m + 2) == 8 * Pow2(m + 1) == 16 * Pow2(m);
      }
    }
  }

  lemma {:induction false} FromToBytes(n: nat, len: nat)
    requires n < Pow256(len)
    ensures FromBytes(ToBytes(n, len)) == n
  {
    if len > 0 {
      FromToBytes(n / 256, len - 1);
      var r := ToBytes(n, len);
      assert r[..|r| - 1] == ToBytes(n / 256, len - 1);
    }
  }

  lemma {:induction false} ToBytesLeading(n: nat, len: nat)
    requires len >= 1 && Pow256(len - 1) <= n < Pow256(len)
    ensures ToBytes(n, len)[0] != 0
  {
    if len == 1 {
      assert ToBytes(n, len) == [] + [n % 256];
    } else {
      assert Pow256(len - 2) <= n / 256;
      ToBytesLeading(n / 256, len - 1);
    }
  }

  /** The octet count `(num.bit_length() + 7) // 8` the issuer uses. */
  function ByteLength(n: nat): nat {
    (BitLength(n) + 7) / 8
  }

  /** The minimal big-endian octets of n fit, and lead with a non-zero octet. */
  lemma MinimalOctets(n: nat)
    ensures n < Pow256(ByteLength(n))
    ensures n > 0 ==> ByteLength(n) >= 1 && Pow256(ByteLength(n) - 1) <= n
  {
    var bl, len := BitLength(n), ByteLength(n);
    BitLengthBounds(n);
    Pow2Monotone(bl, 8 * len);
    Pow2Bytes(len);
    if n > 0 {
      Pow2Monotone(8 * (len - 1), bl - 1);
      Pow2Bytes(len - 1);
    }
  }

  /** `QWEDCertificateIssuer._int_to_base64url(num)` as written: minimal
      big-endian octets, base64url, padding stripped. A negative int makes
      `to_bytes` raise OverflowError. */
  function IntToBase64Url(num: int): (r: Result<string, PyError>)
    ensures r.Err? <==> num < 0
  {
    if num < 0 then Err(OverflowError("can't convert negative int to unsigned"))
    else Ok(EncodeNoPad(ToBytes(num, ByteLength(num))))
  }

  /** The output stays in the URL-safe alphabet and carries no `=`. */
  lemma IntToBase64UrlAlphabet(num: nat)
    ensures IntToBase64Url(num).Ok?
    ensures forall i :: 0 <= i < |IntToBase64Url(num).value| ==> IsUrlSafeChar(IntToBase64Url(num).value[i])
    ensures '=' !in IntToBase64Url(num).value
  {
    EncodeNoPadShape(ToBytes(num, ByteLength(num)));
  }

  /** Re-padding and decoding the output gives exactly `ceil(bit_length / 8)`
      octets whose big-endian value is num, the first one non-zero when num > 0. */
  lemma IntToBase64UrlRoundTrip(num: nat)
    ensures var d := Decode(Repad(IntToBase64Url(num).value));
      && d.Some?
      && |d.value| == (BitLength(num) + 7) / 8
      && FromBytes(d.value) == num
      && (num > 0 ==> d.value[0] != 0)
  {
    var octets := ToBytes(num, ByteLength(num));
    EncodeNoPadRoundTrip(octets);
    MinimalOctets(num);
    FromToBytes(num, ByteLength(num));
    if num > 0 {
      ToBytesLeading(num, ByteLength(num));
    }
  }

  /** For n octets the output has `4 * (n / 3)` symbols plus 0, 2 or 3. */
  lemma IntToBase64UrlLength(num: nat)
    ensures var n := ByteLength(num);
      |IntToBase64Url(num).value| == 4 * (n / 3) + (if n % 3 == 0 then 0 else if n % 3 == 1 then 2 else 3)
  {
    EncodeNoPadShape(ToBytes(num, ByteLength(num)));
  }

  /** As written, zero has no octets at all and encodes as the empty string. */
  lemma IntToBase64UrlZero()
    ensures IntToBase64Url(0) == Ok("")
    ensures Decode(Repad("")) == Some([])
  {
    assert ToBytes(0, ByteLength(0)) == [];
    assert Repad("") == "";
  }

  /** `Base64urlUInt` of section 2 of RFC 7518: the minimal big-endian octets,
      where zero is a single zero octet ("AA"). */
  function Base64UrlUInt(num: nat): string {
    if num == 0 then "AA" else IntToBase64Url(num).value
  }

  /** The corrected encoding decodes to at least one octet, to the value num,
      with no leading zero octet unless num is zero. */
  lemma Base64UrlUIntRoundTrip(num: nat)
    ensures Decode(Repad(Base64UrlUInt(num))).Some?
    ensures var d := Decode(Repad(Base64UrlUInt(num))).value;
      |d| >= 1 && FromBytes(d) == num && (num > 0 ==> d[0] != 0)
  {
    if num == 0 {
      assert Repad("AA") == "AA==";
      assert Decode("AA==") == Some([0]);
    } else {
      IntToBase64UrlRoundTrip(num);
      MinimalOctets(num);
    }
  }

  /** The corrected encoding and the issuer's agree on every positive int. */
  lemma Base64UrlUIntAgrees(num: nat)
    requires num > 0
    ensures Base64UrlUInt(num) == IntToBase64Url(num).value
  {
  }
}

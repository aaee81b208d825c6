/** `encodeHtmlAttributes` (httpd.js): split into code units, keep `[0-9A-Za-z]`,
    write every other unit as a hexadecimal character reference `&#xHH;` (section
    13.1.4 of the WHATWG HTML Living Standard) with upper-case, unpadded digits. */
module HtmlAttributes {
  import opened Utf16

  const LOWER_X: CodeUnit := 0x78  // x

  /** The three ranges the encoder leaves alone: 48-57, 65-90 and 97-122. */
  predicate IsAlphanumeric(c: CodeUnit) {
    (48 <= c <= 57) || (65 <= c <= 90) || (97 <= c <= 122)
  }

  /** What may appear in the encoder's output. */
  predicate IsAttributeSafe(c: CodeUnit) {
    IsAlphanumeric(c) || c == AMP || c == HASH || c == SEMI
  }

  // ---------------------------------------------------------------------------
  // charCode.toString(16).toUpperCase()
  // ---------------------------------------------------------------------------

  predicate IsUpperHexDigit(c: CodeUnit) {
    (0x30 <= c <= 0x39) || (0x41 <= c <= 0x46)
  }

  function HexDigit(d: nat): (c: CodeUnit)
    requires d < 16
    ensures IsUpperHexDigit(c) && HexDigitValue(c) == d
  {
    if d < 10 then 0x30 + d else 0x41 + (d - 10)
  }

  /** The value of an upper-case hex digit (0 for anything else). */
  function HexDigitValue(c: CodeUnit): nat {
    if 0x30 <= c <= 0x39 then c - 0x30 else if 0x41 <= c <= 0x46 then c - 0x41 + 10 else 0
  }

  /** `n.toString(16).toUpperCase()`: base-16 digits, most significant first, as
      many as the value needs. */
  function UpperHex(n: nat): (r: JsString)
    ensures 1 <= |r|
    decreases n
  {
    if n < 16 then [HexDigit(n)] else UpperHex(n / 16) + [HexDigit(n % 16)]
  }

  /** The number a string of upper-case hexadecimal digits denotes. */
  function HexValue(s: JsString): nat
    decreases |s|
  {
    if s == [] then 0 else HexValue(s[..|s| - 1]) * 16 + HexDigitValue(s[|s| - 1])
  }

  /** The digits are upper-case hex digits and denote the number they were made from. */
  lemma {:induction false} UpperHexRoundTrip(n: nat)
    ensures forall i | 0 <= i < |UpperHex(n)| :: IsUpperHexDigit(UpperHex(n)[i])
    ensures HexValue(UpperHex(n)) == n
    decreases n
  {
    if n >= 16 {
      UpperHexRoundTrip(n / 16);
      var r := UpperHex(n);
      assert r[..|r| - 1] == UpperHex(n / 16);
    }
  }

  /** No zero padding: the leading digit is `0` only for 0 itself, and a code unit
      takes at most four digits. */
  lemma {:induction false} UpperHexShape(n: nat)
    ensures UpperHex(n)[0] == 0x30 <==> n == 0
    ensures n < 0x10 ==> |UpperHex(n)| == 1
    ensures n < 0x100 ==> |UpperHex(n)| <= 2
    ensures n < 0x1000 ==> |UpperHex(n)| <= 3
    ensures n < 0x1_0000 ==> |UpperHex(n)| <= 4
    decreases n
  {
    if n >= 16 {
      UpperHexShape(n / 16);
    }
  }

  // ---------------------------------------------------------------------------
  // The encoder
  // ---------------------------------------------------------------------------

  /** What `map` returns for one code unit. */
  function EncodeUnit(c: CodeUnit): JsString {
    if IsAlphanumeric(c) then [c] else [AMP, HASH, LOWER_X] + UpperHex(c) + [SEMI]
  }

  /** `unsafe.split('').map(EncodeUnit).join('')`. */
  function EncodeHtmlAttributes(unsafe: JsString): JsString {
    MapJoin(EncodeUnit, unsafe)
  }

  /** Every unit of the output is an ASCII letter or digit, `&`, `#` or `;`. */
  lemma {:induction false} AttributesOutputSafe(unsafe: JsString)
    ensures forall i | 0 <= i < |EncodeHtmlAttributes(unsafe)| :: IsAttributeSafe(EncodeHtmlAttributes(unsafe)[i])
    decreases |unsafe|
  {
    if unsafe != [] {
      AttributesOutputSafe(unsafe[1..]);
      var head := EncodeUnit(unsafe[0]);
      var tail := EncodeHtmlAttributes(unsafe[1..]);
      assert EncodeHtmlAttributes(unsafe) == head + tail;
      forall i | 0 <= i < |head + tail| ensures IsAttributeSafe((head + tail)[i]) {
        if i >= |head| {
          assert (head + tail)[i] == tail[i - |head|];
        } else if !IsAlphanumeric(unsafe[0]) {
          UpperHexRoundTrip(unsafe[0]);
          assert head == [AMP, HASH, LOWER_X] + UpperHex(unsafe[0]) + [SEMI];
          if 3 <= i < |head| - 1 {
            assert head[i] == UpperHex(unsafe[0])[i - 3];
          }
        }
      }
    }
  }

  /** The encoding is made of one piece per input unit, in input order: the piece for
      `s[i]` sits between the encodings of `s[..i]` and `s[i + 1..]`, and it is
      `s[i]` itself when that is alphanumeric and `&#x` + its hex digits + `;` when not. */
  lemma {:induction false} AttributesAt(s: JsString, i: nat)
    requires i < |s|
    ensures EncodeHtmlAttributes(s) ==
      EncodeHtmlAttributes(s[..i]) + EncodeUnit(s[i]) + EncodeHtmlAttributes(s[i + 1..])
    ensures IsAlphanumeric(s[i]) ==> EncodeUnit(s[i]) == [s[i]]
    ensures !IsAlphanumeric(s[i]) ==> EncodeUnit(s[i]) == [AMP, HASH, LOWER_X] + UpperHex(s[i]) + [SEMI]
  {
    MapJoinAt(EncodeUnit, s, i);
  }

  /** A string made only of `[0-9A-Za-z]` is returned unchanged. */
  lemma {:induction false} AlphanumericUnchanged(s: JsString)
    requires forall i | 0 <= i < |s| :: IsAlphanumeric(s[i])
    ensures EncodeHtmlAttributes(s) == s
    decreases |s|
  {
    if s != [] {
      AlphanumericUnchanged(s[1..]);
      assert s == [s[0]] + s[1..];
    }
  }

  /** `"a b"` becomes `a&#x20;b`. */
  lemma {:induction false} SpaceExample()
    ensures EncodeHtmlAttributes(Ascii("a b")) == Ascii("a&#x20;b")
  {
    var s: JsString := [0x61, 0x20, 0x62];
    assert Ascii("a b") == s;
    assert UpperHex(0x20) == [0x32, 0x30];
    AttributesAt(s, 1);
    assert s[..1] == [0x61] && s[2..] == [0x62];
    AlphanumericUnchanged([0x61]);
    AlphanumericUnchanged([0x62]);
    assert Ascii("a&#x20;b") == [0x61] + ([AMP, HASH, LOWER_X] + [0x32, 0x30] + [SEMI]) + [0x62];
  }

  // ---------------------------------------------------------------------------
  // Decoding: the encoding is injective
  // ---------------------------------------------------------------------------

  /** The end of the run of upper-case hex digits that starts at `k`. */
  function HexRunEnd(t: JsString, k: nat): (j: nat)
    requires k <= |t|
    ensures k <= j <= |t|
    ensures forall i | k <= i < j :: IsUpperHexDigit(t[i])
    ensures j < |t| ==> !IsUpperHexDigit(t[j])
    decreases |t| - k
  {
    if k < |t| && IsUpperHexDigit(t[k]) then HexRunEnd(t, k + 1) else k
  }

  function Prepend(c: CodeUnit, rest: Option<JsString>): Option<JsString> {
    match rest
    case None => None
    case Some(s) => Some([c] + s)
  }

  /** Reads back what the encoder writes: an alphanumeric unit stands for itself,
      `&#x` + upper-case hex digits + `;` for the code unit they denote; anything
      else is not an encoding. */
  function DecodeHtmlAttributes(t: JsString): Option<JsString>
    decreases |t|
  {
    if t == [] then Some([])
    else if IsAlphanumeric(t[0]) then Prepend(t[0], DecodeHtmlAttributes(t[1..]))
    else if |t| >= 3 && t[0] == AMP && t[1] == HASH && t[2] == LOWER_X then
      var j := HexRunEnd(t, 3);
      if 3 < j < |t| && t[j] == SEMI && HexValue(t[3..j]) < 0x1_0000 then
        Prepend(HexValue(t[3..j]), DecodeHtmlAttributes(t[j + 1..]))
      else None
    else None
  }

  lemma {:induction false} DecodeReference(c: CodeUnit, rest: JsString)
    requires !IsAlphanumeric(c)
    ensures DecodeHtmlAttributes(EncodeUnit(c) + rest) == Prepend(c, DecodeHtmlAttributes(rest))
  {
    var digits := UpperHex(c);
    var t := EncodeUnit(c) + rest;
    var j := 3 + |digits|;
    assert t == [AMP, HASH, LOWER_X] + digits + [SEMI] + rest;
    assert t[3..j] == digits;
    assert t[j] == SEMI;
    UpperHexRoundTrip(c);
    assert HexRunEnd(t, 3) == j;
    assert t[j + 1..] == rest;
  }

  lemma {:induction false} DecodeUnit(c: CodeUnit, rest: JsString)
    ensures DecodeHtmlAttributes(EncodeUnit(c) + rest) == Prepend(c, DecodeHtmlAttributes(rest))
  {
    if IsAlphanumeric(c) {
      assert (EncodeUnit(c) + rest)[1..] == rest;
    } else {
      DecodeReference(c, rest);
    }
  }

  /** Decoding the encoder's output recovers the input. */
  lemma {:induction false} DecodeEncode(s: JsString)
    ensures DecodeHtmlAttributes(EncodeHtmlAttributes(s)) == Some(s)
    decreases |s|
  {
    if s != [] {
      DecodeUnit(s[0], EncodeHtmlAttributes(s[1..]));
      DecodeEncode(s[1..]);
      assert s == [s[0]] + s[1..];
    }
  }

  /** Two different strings never encode to the same text. */
  lemma {:induction false} EncodingInjective(a: JsString, b: JsString)
    requires EncodeHtmlAttributes(a) == EncodeHtmlAttributes(b)
    ensures a == b
  {
    DecodeEncode(a);
    DecodeEncode(b);
  }
}

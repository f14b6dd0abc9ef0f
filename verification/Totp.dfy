/**
 * One-time passwords: base32 as authenticator apps read it (section 6 of RFC 4648, without padding), whose accumulator
 * is a 32-bit word that is never masked, and the choice of the step a code is right for.
 */
module Totp {
  import opened Wrappers
  import opened Texts

  const BASE32 := "ABCDEFGHIJKLMNOPQRSTUVWXYZ234567"
  const WORD := 0x1_0000_0000

  // ---------------------------------------------------------------------------------------------------------------
  // Words of 32 bits and their lowest bits
  // ---------------------------------------------------------------------------------------------------------------

  function Pow2(k: nat): (r: nat)
    ensures r > 0
  {
    if k == 0 then 1 else 2 * Pow2(k - 1)
  }

  /** `(v << k) | y` for a `y` of `k` bits: what is shifted past the 32nd bit is gone, and `y` fills the zeros below. */
  function Push(v: nat, k: nat, y: nat): nat {
    v * Pow2(k) % WORD + y
  }

  /** `(v >>> k) & (2^n - 1)`. */
  function Field(v: nat, k: nat, n: nat): nat {
    v / Pow2(k) % Pow2(n)
  }

  /** The lowest `n` bits, highest first. */
  function Bits(v: nat, n: nat): (r: seq<bool>)
    ensures |r| == n
  {
    if n == 0 then [] else Bits(v / 2, n - 1) + [v % 2 == 1]
  }

  /** Bits that come in from below move the others up. */
  lemma {:induction false} BitsPushed(v: nat, y: nat, b: nat, k: nat)
    requires y < Pow2(k)
    ensures Bits(v * Pow2(k) + y, b + k) == Bits(v, b) + Bits(y, k)
    decreases k
  {
    if k == 0 {
      assert Bits(v, b) + Bits(y, 0) == Bits(v, b);
    } else {
      var w := v * Pow2(k) + y;
      assert w == 2 * (v * Pow2(k - 1)) + y;
      assert w / 2 == v * Pow2(k - 1) + y / 2 && w % 2 == y % 2;
      BitsPushed(v, y / 2, b, k - 1);
      assert Bits(v, b) + Bits(y, k) == Bits(v, b) + Bits(y / 2, k - 1) + [y % 2 == 1];
    }
  }

  lemma {:induction false} PowersAdd(a: nat, b: nat)
    ensures Pow2(a + b) == Pow2(a) * Pow2(b)
  {
    if a > 0 { PowersAdd(a - 1, b); }
  }

  /** Bits above the ones looked at do not matter. */
  lemma {:induction false} BitsOfRemainder(v: nat, q: nat, n: nat, m: nat)
    requires n <= m
    ensures Bits(v + q * Pow2(m), n) == Bits(v, n)
    decreases n
  {
    if n > 0 {
      var h := q * Pow2(m - 1);
      assert q * Pow2(m) == 2 * h;
      assert (v + 2 * h) / 2 == v / 2 + h && (v + 2 * h) % 2 == v % 2;
      BitsOfRemainder(v / 2, q, n - 1, m - 1);
    }
  }

  lemma Pow32()
    ensures Pow2(32) == WORD
  {
    assert Pow2(4) == 16 && Pow2(8) == 256;
    PowersAdd(16, 16);
    PowersAdd(8, 8);
  }

  lemma BitsMasked(v: nat, n: nat, m: nat)
    requires n <= m
    ensures Bits(v % Pow2(m), n) == Bits(v, n)
  {
    hide Bits, Pow2;
    Parts(v, Pow2(m));
    BitsOfRemainder(v % Pow2(m), v / Pow2(m), n, m);
  }

  lemma Parts(v: nat, p: nat)
    requires p > 0
    ensures v == v % p + v / p * p && v % p < p
  {
  }

  /** The word need not be masked: the bits still waiting and the new ones are its lowest. */
  lemma BitsIn(v: nat, y: nat, b: nat, k: nat)
    requires y < Pow2(k) && b + k <= 32
    ensures Bits(Push(v, k, y), b + k) == Bits(v, b) + Bits(y, k)
  {
    var w := v * Pow2(k);
    Pow32();
    BitsOfRemainder(w % WORD + y, w / WORD, b + k, 32);
    assert w % WORD + y + w / WORD * WORD == w + y;
    BitsPushed(v, y, b, k);
  }

  /** Taking the `n` bits above the lowest `r` leaves those. */
  lemma BitsOut(v: nat, n: nat, r: nat)
    ensures Field(v, r, n) < Pow2(n) && Bits(v, n + r) == Bits(Field(v, r, n), n) + Bits(v, r)
  {
    hide Bits, Pow2;
    var p := Pow2(r);
    Parts(v, p);
    Parts(v / p, Pow2(n));
    BitsPushed(v / p, v % p, n, r);
    BitsMasked(v, r, r);
    BitsMasked(v / p, n, n);
  }

  lemma {:induction false} NoBits(n: nat)
    ensures Bits(0, n) == seq(n, _ => false)
  {
    if n > 0 { NoBits(n - 1); }
  }

  /** A number is its bits. */
  lemma {:induction false} BitsTell(v: nat, w: nat, n: nat)
    requires v < Pow2(n) && w < Pow2(n) && Bits(v, n) == Bits(w, n)
    ensures v == w
    decreases n
  {
    if n > 0 {
      assert Bits(v, n)[..n - 1] == Bits(v / 2, n - 1) && Bits(w, n)[..n - 1] == Bits(w / 2, n - 1);
      assert Bits(v, n)[n - 1] == (v % 2 == 1) && Bits(w, n)[n - 1] == (w % 2 == 1);
      BitsTell(v / 2, w / 2, n - 1);
    }
  }

  // ---------------------------------------------------------------------------------------------------------------
  // Base32
  // ---------------------------------------------------------------------------------------------------------------

  function IndexIn(s: string, c: char): int {
    if s == "" then -1 else if s[0] == c then 0
    else
      var i := IndexIn(s[1..], c);
      if i < 0 then -1 else i + 1
  }

  function BytesBits(bytes: seq<byte>): seq<bool> {
    if bytes == [] then [] else BytesBits(bytes[..|bytes| - 1]) + Bits(bytes[|bytes| - 1], 8)
  }

  /** Every character is one of the alphabet. */
  predicate IsBase32(s: string) {
    forall c <- s :: 0 <= IndexIn(BASE32, c) < 32
  }

  function TextBits(s: string): seq<bool>
    requires IsBase32(s)
  {
    if s == "" then [] else TextBits(s[..|s| - 1]) + Bits(IndexIn(BASE32, s[|s| - 1]), 5)
  }

  lemma {:induction false} IndexFound(s: string, i: nat)
    requires i < |s| && forall j, k :: 0 <= j < k < |s| ==> s[j] != s[k]
    ensures IndexIn(s, s[i]) == i
    decreases s
  {
    if i > 0 {
      IndexFound(s[1..], i - 1);
    }
  }

  lemma Letters()
    ensures |BASE32| == 32
    ensures forall i :: 0 <= i < 32 ==> BASE32[i] as int == if i < 26 then 65 + i else 24 + i
  {
  }

  /** Each digit's character stands for that digit. */
  lemma DigitBack(i: nat)
    requires i < 32
    ensures |BASE32| == 32 && IndexIn(BASE32, BASE32[i]) == i
  {
    Letters();
    IndexFound(BASE32, i);
  }

  /** A text with one digit more. */
  lemma OneDigitMore(s: string, i: nat)
    requires IsBase32(s) && i < 32
    ensures |BASE32| == 32 && IsBase32(s + [BASE32[i]]) && TextBits(s + [BASE32[i]]) == TextBits(s) + Bits(i, 5)
  {
    DigitBack(i);
    var t := s + [BASE32[i]];
    assert t[..|t| - 1] == s;
  }

  lemma OneByteMore(bytes: seq<byte>, b: byte)
    ensures BytesBits(bytes + [b]) == BytesBits(bytes) + Bits(b, 8)
  {
    assert (bytes + [b])[..|bytes|] == bytes;
  }

  function Falses(n: nat): seq<bool> {
    seq(n, _ => false)
  }

  lemma Small()
    ensures Pow2(0) == 1 && Pow2(1) == 2 && Pow2(3) == 8 && Pow2(5) == 32 && Pow2(8) == 256
  {
  }

  lemma NoDigits()
    ensures IsBase32("") && TextBits("") == [] && BytesBits([]) == [] && Bits(0, 0) == []
  {
  }

  lemma LastDigit(v: nat, b: nat)
    requires 1 <= b <= 4
    ensures Bits(Push(v, 5 - b, 0) % 32, 5) == Bits(v, b) + Falses(5 - b)
  {
    Small();
    hide Bits, Push;
    BitsIn(v, 0, b, 5 - b);
    BitsMasked(Push(v, 5 - b, 0), 5, 5);
    NoBits(5 - b);
  }

  lemma NothingLeft(v: nat, s: seq<bool>)
    ensures s + Bits(v, 0) == s
  {
  }

  /** The text's bits are the bytes' bits, in order, and up to four zeros. */
  predicate Encoded(bytes: seq<byte>, text: string) {
    && IsBase32(text) && |text| == (8 * |bytes| + 4) / 5
    && TextBits(text) == BytesBits(bytes) + Falses(5 * |text| - 8 * |bytes|)
  }

  method Base32Encode(bytes: seq<byte>) returns (out: string)
    ensures Encoded(bytes, out)
  {
    hide IndexIn, Bits, Push, Field, IsBase32, TextBits, BytesBits;
    Small();
    Letters();
    var bits, value := 0, 0;
    out := "";
    NoDigits();
    for i := 0 to |bytes|
      invariant 0 <= bits <= 4 && value >= 0 && 8 * i == 5 * |out| + bits
      invariant IsBase32(out) && TextBits(out) + Bits(value, bits) == BytesBits(bytes[..i])
    {
      var byte := bytes[i];
      BitsIn(value, byte, bits, 8);
      ghost var waiting := TextBits(out) + Bits(value, bits) + Bits(byte, 8);
      assert waiting == TextBits(out) + (Bits(value, bits) + Bits(byte, 8));
      OneByteMore(bytes[..i], byte);
      assert bytes[..i] + [byte] == bytes[..i + 1];
      value := Push(value, 8, byte);
      bits := bits + 8;
      while bits >= 5
        invariant 0 <= bits <= 12 && 8 * (i + 1) == 5 * |out| + bits
        invariant IsBase32(out) && TextBits(out) + Bits(value, bits) == BytesBits(bytes[..i + 1])
      {
        BitsOut(value, 5, bits - 5);
        var digit := Field(value, bits - 5, 5);
        OneDigitMore(out, digit);
        assert TextBits(out) + Bits(digit, 5) + Bits(value, bits - 5) == TextBits(out) + (Bits(digit, 5) + Bits(value, bits - 5));
        out := out + [BASE32[digit]];
        bits := bits - 5;
      }
    }
    assert bytes[..|bytes|] == bytes;
    if bits > 0 {
      LastDigit(value, bits);
      var digit := Push(value, 5 - bits, 0) % 32;
      OneDigitMore(out, digit);
      assert TextBits(out) + (Bits(value, bits) + Falses(5 - bits)) == BytesBits(bytes) + Falses(5 - bits);
      out := out + [BASE32[digit]];
    } else {
      NothingLeft(value, TextBits(out));
      assert BytesBits(bytes) + Falses(0) == BytesBits(bytes);
    }
  }

  /** What a text is read as: upper case, without the padding at its end, and without white space. */
  function Cleaned(upper: string -> string, text: string): string {
    WithoutSpaces(WithoutPadding(upper(text)))
  }

  function WithoutPadding(s: string): string {
    if s != "" && s[|s| - 1] == '=' then WithoutPadding(s[..|s| - 1]) else s
  }

  function WithoutSpaces(s: string): string {
    if s == "" then "" else (if IsSpace(s[0]) then "" else [s[0]]) + WithoutSpaces(s[1..])
  }

  /** As many whole bytes as the text has bits for: those bits, the up to seven left over dropped. */
  predicate Decoded(text: string, bytes: seq<byte>) {
    && IsBase32(text) && |bytes| == 5 * |text| / 8
    && BytesBits(bytes) <= TextBits(text)
  }

  method Base32Decode(upper: string -> string, text: string) returns (r: Option<seq<byte>>)
    ensures DecodesTo(upper, text, r)
  {
    var clean := Cleaned(upper, text);
    hide IndexIn, Bits, Push, Field, TextBits, BytesBits, Cleaned;
    Small();
    var bits, value := 0, 0;
    var out: seq<byte> := [];
    NoDigits();
    for i := 0 to |clean|
      invariant 0 <= bits <= 7 && value >= 0 && 5 * i == 8 * |out| + bits
      invariant IsBase32(clean[..i]) && BytesBits(out) + Bits(value, bits) == TextBits(clean[..i])
    {
      var index := IndexIn(BASE32, clean[i]);
      if index == -1 {
        assert clean[i] in clean;
        return None;
      }
      IndexRange(BASE32, clean[i]);
      Letters();
      assert clean[..i + 1] == clean[..i] + [clean[i]];
      TextOneMore(clean[..i], clean[i]);
      BitsIn(value, index, bits, 5);
      assert BytesBits(out) + Bits(value, bits) + Bits(index, 5) == BytesBits(out) + (Bits(value, bits) + Bits(index, 5));
      value := Push(value, 5, index);
      bits := bits + 5;
      if bits >= 8 {
        BitsOut(value, 8, bits - 8);
        var byte := Field(value, bits - 8, 8);
        OneByteMore(out, byte);
        assert BytesBits(out) + Bits(byte, 8) + Bits(value, bits - 8) == BytesBits(out) + (Bits(byte, 8) + Bits(value, bits - 8));
        out := out + [byte];
        bits := bits - 8;
      }
    }
    assert clean[..|clean|] == clean;
    r := Some(out);
  }

  lemma {:induction false} IndexRange(s: string, c: char)
    ensures -1 <= IndexIn(s, c) < |s| && (IndexIn(s, c) >= 0 ==> s[IndexIn(s, c)] == c)
  {
    if s != "" { IndexRange(s[1..], c); }
  }

  lemma TextOneMore(s: string, c: char)
    requires IsBase32(s) && 0 <= IndexIn(BASE32, c) < 32
    ensures IsBase32(s + [c]) && TextBits(s + [c]) == TextBits(s) + Bits(IndexIn(BASE32, c), 5)
  {
    assert (s + [c])[..|s|] == s;
  }

  lemma {:induction false} BytesLength(bytes: seq<byte>)
    ensures |BytesBits(bytes)| == 8 * |bytes|
  {
    if bytes != [] { BytesLength(bytes[..|bytes| - 1]); }
  }

  lemma SameParts(a: seq<bool>, b: seq<bool>, c: seq<bool>, d: seq<bool>)
    requires a + b == c + d && |a| == |c|
    ensures a == c && b == d
  {
    assert a == (a + b)[..|a|] && c == (c + d)[..|c|];
    assert b == (a + b)[|a|..] && d == (c + d)[|c|..];
  }

  lemma {:induction false} LastOfBytes(x: seq<byte>)
    requires x != []
    ensures var n := |x| - 1;
            BytesBits(x) == BytesBits(x[..n]) + Bits(x[n], 8) && |BytesBits(x[..n])| == 8 * n && x == x[..n] + [x[n]]
  {
    hide Bits;
    BytesLength(x[..|x| - 1]);
  }

  /** Bytes are their bits. */
  lemma {:induction false} BytesTell(x: seq<byte>, y: seq<byte>)
    requires |x| == |y| && BytesBits(x) == BytesBits(y)
    ensures x == y
    decreases |x|
  {
    hide Bits, BytesBits, Pow2;
    if x != [] {
      var n := |x| - 1;
      LastOfBytes(x);
      LastOfBytes(y);
      SameParts(BytesBits(x[..n]), Bits(x[n], 8), BytesBits(y[..n]), Bits(y[n], 8));
      BytesTell(x[..n], y[..n]);
      Small();
      BitsTell(x[n], y[n], 8);
    }
  }

  /** Nothing of the alphabet is cleaned away. */
  lemma {:induction false} AlphabetStays(s: string)
    requires IsBase32(s)
    ensures WithoutSpaces(s) == s && WithoutPadding(s) == s
  {
    if s != "" {
      AlphabetIsPlain(s[0]);
      AlphabetIsPlain(s[|s| - 1]);
      AlphabetStays(s[1..]);
    }
  }

  lemma AlphabetIsPlain(c: char)
    requires 0 <= IndexIn(BASE32, c) < 32
    ensures !IsSpace(c) && c != '='
  {
    Letters();
    IndexRange(BASE32, c);
  }

  /** What `Base32Decode` gives: nothing for a character outside the alphabet, else the whole bytes of the text. */
  ghost predicate DecodesTo(upper: string -> string, text: string, r: Option<seq<byte>>) {
    && (r.None? <==> !IsBase32(Cleaned(upper, text)))
    && (r.Some? ==> Decoded(Cleaned(upper, text), r.value))
  }

  /** Decoding what was encoded succeeds and gives the bytes back, whatever the bytes. */
  lemma Base32RoundTrip(upper: string -> string, bytes: seq<byte>, text: string, r: Option<seq<byte>>)
    requires Encoded(bytes, text) && upper(text) == text && DecodesTo(upper, text, r)
    ensures r == Some(bytes)
  {
    hide IndexIn, Bits, IsBase32;
    AlphabetStays(text);
    BytesLength(bytes);
    BytesLength(r.value);
    assert BytesBits(bytes) == TextBits(text)[..8 * |bytes|];
    BytesTell(r.value, bytes);
  }

  /** A text as a person may type it: white space anywhere in it, and any padding after it. */
  ghost predicate Typed(text: string, typed: string) {
    exists spaced: string, n: nat :: typed == spaced + Padding(n) && Spaced(text, spaced)
  }

  ghost predicate Spaced(text: string, spaced: string) {
    if spaced == "" then text == ""
    else
      || (IsSpace(spaced[0]) && Spaced(text, spaced[1..]))
      || (text != "" && text[0] == spaced[0] && Spaced(text[1..], spaced[1..]))
  }

  function Padding(n: nat): string {
    seq(n, _ => '=')
  }

  lemma {:induction false} SpacesCleaned(text: string, spaced: string)
    requires Spaced(text, spaced) && IsBase32(text)
    ensures WithoutSpaces(spaced) == text && (spaced != "" ==> spaced[|spaced| - 1] != '=')
  {
    if spaced != "" {
      if text != "" { AlphabetIsPlain(text[0]); }
      if IsSpace(spaced[0]) { SpacesCleaned(text, spaced[1..]); } else { SpacesCleaned(text[1..], spaced[1..]); }
    }
  }

  lemma {:induction false} PaddingCleaned(spaced: string, n: nat)
    requires spaced != "" ==> spaced[|spaced| - 1] != '='
    ensures WithoutPadding(spaced + Padding(n)) == spaced
  {
    var s := spaced + Padding(n);
    if n > 0 {
      assert s[..|s| - 1] == spaced + Padding(n - 1);
      PaddingCleaned(spaced, n - 1);
    } else {
      assert s == spaced;
    }
  }

  lemma {:induction false} CleanedIsSpaced(spaced: string)
    ensures Spaced(WithoutSpaces(spaced), spaced)
  {
    if spaced != "" {
      CleanedIsSpaced(spaced[1..]);
      var rest := WithoutSpaces(spaced[1..]);
      assert ([spaced[0]] + rest)[1..] == rest && "" + rest == rest;
    }
  }

  lemma {:induction false} CleanedIsPadded(s: string) returns (n: nat)
    ensures s == WithoutPadding(s) + Padding(n)
  {
    n := 0;
    if s != "" && s[|s| - 1] == '=' {
      var k := CleanedIsPadded(s[..|s| - 1]);
      assert Padding(k + 1) == Padding(k) + ['='];
      n := k + 1;
    }
  }

  lemma TypedIsCleaned(upper: string -> string, text: string, typed: string)
    requires IsBase32(text) && Typed(text, upper(typed))
    ensures Cleaned(upper, typed) == text
  {
    var spaced: string, n: nat :| upper(typed) == spaced + Padding(n) && Spaced(text, spaced);
    SpacesCleaned(text, spaced);
    PaddingCleaned(spaced, n);
  }

  /** The bytes come back however their text is typed: in any case, with any white space, padded or not. */
  lemma TypedRoundTrip(upper: string -> string, bytes: seq<byte>, text: string, typed: string, r: Option<seq<byte>>)
    requires Encoded(bytes, text) && Typed(text, upper(typed)) && DecodesTo(upper, typed, r)
    ensures r == Some(bytes)
  {
    TypedIsCleaned(upper, text, typed);
    AlphabetStays(text);
    var same := (s: string) => s;
    assert Cleaned(same, text) == text;
    Base32RoundTrip(same, bytes, text, r);
  }

  /** Exactly the texts of the alphabet so typed are read. */
  lemma ReadExactlyWhereTyped(upper: string -> string, typed: string, r: Option<seq<byte>>)
    requires DecodesTo(upper, typed, r)
    ensures r.Some? <==> exists text :: IsBase32(text) && Typed(text, upper(typed))
  {
    var text := Cleaned(upper, typed);
    var n := CleanedIsPadded(upper(typed));
    CleanedIsSpaced(WithoutPadding(upper(typed)));
    assert Typed(text, upper(typed));
    if other :| IsBase32(other) && Typed(other, upper(typed)) { TypedIsCleaned(upper, other, typed); }
  }

  /** `base32Decode(base32Encode(bytes))`. */
  method EncodeAndDecode(upper: string -> string, bytes: seq<byte>) returns (r: Option<seq<byte>>)
    requires forall text :: IsBase32(text) ==> upper(text) == text
    ensures r == Some(bytes)
  {
    var text := Base32Encode(bytes);
    r := Base32Decode(upper, text);
    Base32RoundTrip(upper, bytes, text, r);
  }

  /** Different bytes have different texts, and each has one. */
  lemma Base32Unique(bytes: seq<byte>, text: string, other: string)
    requires Encoded(bytes, text) && Encoded(bytes, other)
    ensures text == other
  {
    TextTells(text, other);
  }

  lemma {:induction false} LastOfText(s: string)
    requires IsBase32(s) && s != ""
    ensures var n := |s| - 1;
            && IsBase32(s[..n]) && 0 <= IndexIn(BASE32, s[n]) < 32
            && TextBits(s) == TextBits(s[..n]) + Bits(IndexIn(BASE32, s[n]), 5) && |TextBits(s[..n])| == 5 * n
            && s == s[..n] + [s[n]]
  {
    hide IndexIn, Bits;
    TextLength(s[..|s| - 1]);
  }

  lemma DigitsTell(c: char, d: char)
    requires 0 <= IndexIn(BASE32, c) < 32 && 0 <= IndexIn(BASE32, d) < 32
    requires Bits(IndexIn(BASE32, c), 5) == Bits(IndexIn(BASE32, d), 5)
    ensures c == d
  {
    hide IndexIn, Bits;
    Small();
    BitsTell(IndexIn(BASE32, c), IndexIn(BASE32, d), 5);
    IndexRange(BASE32, c);
    IndexRange(BASE32, d);
  }

  lemma {:induction false} TextTells(s: string, t: string)
    requires IsBase32(s) && IsBase32(t) && |s| == |t| && TextBits(s) == TextBits(t)
    ensures s == t
    decreases |s|
  {
    hide IndexIn, Bits, TextBits, IsBase32;
    if s != "" {
      var n := |s| - 1;
      LastOfText(s);
      LastOfText(t);
      SameParts(TextBits(s[..n]), Bits(IndexIn(BASE32, s[n]), 5), TextBits(t[..n]), Bits(IndexIn(BASE32, t[n]), 5));
      TextTells(s[..n], t[..n]);
      DigitsTell(s[n], t[n]);
    }
  }

  lemma {:induction false} TextLength(s: string)
    requires IsBase32(s)
    ensures |TextBits(s)| == 5 * |s|
  {
    if s != "" { TextLength(s[..|s| - 1]); }
  }

  // ---------------------------------------------------------------------------------------------------------------
  // The step a code is right for
  // ---------------------------------------------------------------------------------------------------------------

  const STEP_SECONDS := 30
  const WINDOW := 1

  function StepAt(ms: nat): nat {
    ms / 1000 / STEP_SECONDS
  }

  predicate SixDigits(s: string) {
    |s| == 6 && forall c <- s :: '0' <= c <= '9'
  }

  /** The first step of the window, above the last one accepted, whose code was given. */
  function RightStep(codeFor: (string, int) -> string, secret: string, code: string, ms: nat, after: int): Option<int> {
    var given, now := Trim(code), StepAt(ms);
    if !SixDigits(given) then None
    else if now - 1 > after && codeFor(secret, now - 1) == given then Some(now - 1)
    else if now > after && codeFor(secret, now) == given then Some(now)
    else if now + 1 > after && codeFor(secret, now + 1) == given then Some(now + 1)
    else None
  }

  /** Steps up to `after` were used before. */
  method VerifyCode(codeFor: (string, int) -> string, secret: string, code: string, ms: nat, after: int)
    returns (r: Option<int>)
    ensures r == RightStep(codeFor, secret, code, ms, after)
    ensures r.Some? ==> SixDigits(Trim(code)) && StepAt(ms) - 1 <= r.value <= StepAt(ms) + 1 && r.value > after
                        && codeFor(secret, r.value) == Trim(code)
    ensures r.Some? ==>
              forall step :: StepAt(ms) - 1 <= step < r.value && step > after ==> codeFor(secret, step) != Trim(code)
    ensures r.None? && SixDigits(Trim(code)) ==>
              forall step :: StepAt(ms) - 1 <= step <= StepAt(ms) + 1 && step > after ==>
                codeFor(secret, step) != Trim(code)
  {
    var given := Trim(code);
    if !SixDigits(given) { return None; }
    var now := StepAt(ms);
    for offset := -WINDOW to WINDOW + 1
      invariant forall step :: now - 1 <= step < now + offset && step > after ==> codeFor(secret, step) != given
    {
      var step := now + offset;
      if step > after && codeFor(secret, step) == given { return Some(step); }
    }
    r := None;
  }
}

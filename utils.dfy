/**
 * The helpers of frontend/lib/utils.ts: the avatar gradient derived from a string by a
 * 32-bit hash, and the two URL helpers. JavaScript numbers are written out: the hash is
 * an exact integer (for texts shorter than 2^21 code units it stays below 2^53, see
 * `HashExact`), `<<` and `>>` act on its 32-bit two's complement value, and `%` keeps
 * the sign of the dividend.
 */
module Utils {
  import opened Wrappers
  import opened Strings

  // ================================================================ JavaScript arithmetic

  const TwoTo31: int := 0x8000_0000
  const TwoTo32: int := 0x1_0000_0000

  predicate IsInt32(x: int) {
    -TwoTo31 <= x < TwoTo31
  }

  /** ECMAScript ToInt32 on an integer: the value modulo 2^32, read as two's complement. */
  function ToInt32(x: int): (r: int)
    ensures IsInt32(r)
    ensures (r - x) % TwoTo32 == 0
    ensures IsInt32(x) ==> r == x
  {
    (x + TwoTo31) % TwoTo32 - TwoTo31
  }

  /** `x << 5`: multiplies by 32, modulo 2^32. */
  function ShiftLeft5(x: int): (r: int)
    ensures IsInt32(r)
    ensures (r - 32 * x) % TwoTo32 == 0
  {
    var r := ToInt32(ToInt32(x) * 32);
    MultiplesCombine(r - ToInt32(x) * 32, ToInt32(x) - x, 32);
    r
  }

  /** Sums of multiples of 2^32 are multiples of 2^32. */
  lemma MultiplesCombine(a: int, b: int, k: int)
    requires a % TwoTo32 == 0 && b % TwoTo32 == 0
    ensures (a + k * b) % TwoTo32 == 0
  {
    var qa, qb := a / TwoTo32, b / TwoTo32;
    assert a == TwoTo32 * qa;
    assert b == TwoTo32 * qb;
    assert k * b == TwoTo32 * (k * qb);
    assert a + k * b == TwoTo32 * (qa + k * qb);
  }

  /** `x >> 8`: an arithmetic shift of the 32-bit value, rounding toward minus infinity. */
  function ShiftRight8(x: int): (r: int)
    ensures -0x80_0000 <= r < 0x80_0000
  {
    ToInt32(x) / 256
  }

  function Abs(x: int): nat {
    if x < 0 then -x else x
  }

  /** JavaScript's `a % b` for `b > 0`: the remainder has the sign of `a`. */
  function Rem(a: int, b: int): (r: int)
    requires b > 0
    ensures Abs(r) == Abs(a) % b
    ensures a >= 0 ==> r >= 0
    ensures a < 0 ==> r <= 0
  {
    if a >= 0 then a % b else -((-a) % b)
  }

  // ================================================================ stringToGradient

  /** A UTF-16 code unit, as `charCodeAt` returns. */
  type CodeUnit = x: int | 0 <= x < 0x1_0000

  /** One step of the hash loop: `hash = code + ((hash << 5) - hash)`. */
  function HashStep(hash: int, code: CodeUnit): int {
    code + (ShiftLeft5(hash) - hash)
  }

  /** The hash after the loop has read `units`. */
  function Hash(units: seq<CodeUnit>): int {
    if units == [] then 0 else HashStep(Hash(AllButLast(units)), Last(units))
  }

  const HashGrowth: int := TwoTo31 + 0x1_0000

  /**
   * Each character moves the hash by less than 2^31 + 2^16, so for any text shorter than
   * 2^21 code units the hash stays below 2^53: every value the loop computes is an integer
   * a double holds exactly, and the model's unbounded integers agree with the source.
   */
  lemma {:induction false} HashBound(units: seq<CodeUnit>)
    ensures Abs(Hash(units)) <= |units| * HashGrowth
  {
    if units != [] {
      var n := |units| - 1;
      HashBound(AllButLast(units));
      HashStepBound(Hash(AllButLast(units)), Last(units));
      assert n * HashGrowth + HashGrowth == |units| * HashGrowth;
    }
  }

  lemma HashStepBound(hash: int, code: CodeUnit)
    ensures Abs(HashStep(hash, code)) <= Abs(hash) + HashGrowth
  {
    var shifted := ShiftLeft5(hash);
    assert IsInt32(shifted);
  }

  lemma HashExact(units: seq<CodeUnit>)
    requires |units| < 0x20_0000
    ensures Abs(Hash(units)) < 0x20_0000_0000_0000
  {
    HashBound(units);
    assert |units| * HashGrowth <= 0x1F_FFFF * HashGrowth;
  }

  datatype Hues = Hues(hue1: int, hue2: int)

  /** The two hues the gradient uses, from the hash. */
  function HuesOf(hash: int): (h: Hues)
    ensures 0 <= h.hue1 < 360 && 0 <= h.hue2 < 360
    ensures h.hue1 == Abs(hash) % 360
    ensures h.hue2 == (h.hue1 + 40 + HueShift(hash)) % 360
  {
    var hue1 := Abs(Rem(hash, 360));
    var k := Abs(Rem(ShiftRight8(hash), 60));
    Hues(hue1, (hue1 + 40 + k) % 360)
  }

  /** How far past `hue1 + 40` the second hue lies: taken from bits 8 and up of the hash. */
  function HueShift(hash: int): (k: nat)
    ensures k < 60
    ensures k == Abs(ToInt32(hash) / 256) % 60
  {
    Abs(Rem(ShiftRight8(hash), 60))
  }

  /** The CSS the component gets for a pair of hues. */
  function GradientCss(h: Hues): string {
    "linear-gradient(135deg, hsl(" + IntToString(h.hue1) + ", 70%, 60%) 0%, hsl(" +
    IntToString(h.hue2) + ", 80%, 50%) 100%)"
  }

  /** `stringToGradient`, with its hash loop. */
  method StringToGradient(units: seq<CodeUnit>) returns (css: string)
    ensures css == GradientCss(HuesOf(Hash(units)))
  {
    var hash := 0;
    for i := 0 to |units|
      invariant hash == Hash(units[..i])
    {
      assert AllButLast(units[..i + 1]) == units[..i];
      hash := units[i] + (ShiftLeft5(hash) - hash);
    }
    assert units[..|units|] == units;
    var hue1 := Abs(Rem(hash, 360));
    var hue2 := (hue1 + 40 + Abs(Rem(ShiftRight8(hash), 60))) % 360;
    assert Hues(hue1, hue2) == HuesOf(Hash(units));
    css := GradientCss(Hues(hue1, hue2));
  }

  /** The textbook string hash: `31 * h + code` over the code units, without any wrap-around. */
  function PolynomialHash(units: seq<CodeUnit>): int {
    if units == [] then 0 else 31 * PolynomialHash(AllButLast(units)) + Last(units)
  }

  /**
   * The loop computes the polynomial string hash modulo 2^32: `(h << 5) - h` is `31 * h`
   * once the shift's wrap-around is taken out.
   */
  lemma {:induction false} HashIsPolynomial(units: seq<CodeUnit>)
    ensures (Hash(units) - PolynomialHash(units)) % TwoTo32 == 0
  {
    if units != [] {
      var h, p := Hash(AllButLast(units)), PolynomialHash(AllButLast(units));
      HashIsPolynomial(AllButLast(units));
      var shifted := ShiftLeft5(h);
      assert Hash(units) - PolynomialHash(units) == (shifted - 32 * h) + 31 * (h - p);
      MultiplesCombine(shifted - 32 * h, h - p, 31);
    }
  }

  /** A single character's hash is its code: the shift of 0 is 0. */
  lemma HashOfOne(c: CodeUnit)
    ensures Hash([c]) == c
  {
    assert AllButLast([c]) == [];
  }

  // ================================================================ URL helpers

  /** What the `URL` constructor reports about a string it accepts. */
  datatype ParsedUrl = ParsedUrl(protocol: string, hostname: string)

  /**
   * `getDomain`: the hostname of a URL, or the input itself when it does not parse.
   * `parse` is the `URL` constructor: it holds the strings it accepts.
   */
  function GetDomain(url: string, parse: map<string, ParsedUrl>): (r: string)
    ensures url in parse ==> r == parse[url].hostname
    ensures url !in parse ==> r == url
  {
    match Get(parse, url)
    case Some(parsed) => parsed.hostname
    case None => url
  }

  /** `isValidHttpUrl`: the string parses and its protocol is `http:` or `https:`. */
  function IsValidHttpUrl(s: string, parse: map<string, ParsedUrl>): (r: bool)
    ensures r <==> s in parse && (parse[s].protocol == "http:" || parse[s].protocol == "https:")
  {
    match Get(parse, s)
    case Some(parsed) => parsed.protocol == "http:" || parsed.protocol == "https:"
    case None => false
  }
}
